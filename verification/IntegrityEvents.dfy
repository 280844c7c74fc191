/**
 What follows a comparison: the events on record are brought in line with the
 differences, and the baseline is replaced, or not.
 */
module IntegrityEvents {
  import opened Common
  import opened IntegrityCompare
  import opened IntegrityReport

  type Key = (Event, string)

  /** The signature of a difference is computed from what was there before and after. */
  datatype Stored = Stored(before: Option<(Kind, string)>, after: Option<(Kind, string)>, isOpen: bool)

  function KeyOf(d: Difference): Key { (d.event, d.path) }

  function Recorded(d: Difference): Stored { Stored(d.before, d.after, true) }

  /** An event is news if it is not on record, was resolved, or has another signature. */
  predicate News(events: map<Key, Stored>, d: Difference) {
    KeyOf(d) !in events || events[KeyOf(d)] != Recorded(d)
  }

  function CountNews(events: map<Key, Stored>, ds: seq<Difference>): nat {
    if ds == [] then 0 else CountNews(events, ds[..|ds| - 1]) + if News(events, ds[|ds| - 1]) then 1 else 0
  }

  ghost predicate DistinctKeys(ds: seq<Difference>) {
    forall i, j :: 0 <= i < j < |ds| ==> KeyOf(ds[i]) != KeyOf(ds[j])
  }

  /** Exactly the given differences are open, each with its signature. */
  ghost predicate Shows(events: map<Key, Stored>, ds: seq<Difference>) {
    && (forall d :: d in ds ==> KeyOf(d) in events && events[KeyOf(d)] == Recorded(d))
    && (forall k :: k in events && events[k].isOpen ==> exists d :: d in ds && KeyOf(d) == k)
  }

  lemma {:induction false} NothingNew(events: map<Key, Stored>, ds: seq<Difference>)
    requires forall d :: d in ds ==> KeyOf(d) in events && events[KeyOf(d)] == Recorded(d)
    ensures CountNews(events, ds) == 0
  {
    if ds != [] { NothingNew(events, ds[..|ds| - 1]); }
  }

  ghost predicate Reported(ds: seq<Difference>, k: Key) { exists d :: d in ds && KeyOf(d) == k }

  lemma ReportedMore(ds: seq<Difference>, i: nat, k: Key)
    requires i < |ds|
    ensures Reported(ds[..i + 1], k) <==> Reported(ds[..i], k) || KeyOf(ds[i]) == k
  {
    assert ds[..i + 1] == ds[..i] + [ds[i]];
  }

  /** The events after the differences have been written, one by one; later ones of the same
      key replace earlier ones. */
  function Upserted(events: map<Key, Stored>, ds: seq<Difference>): map<Key, Stored> {
    if ds == [] then events else Upserted(events, ds[..|ds| - 1])[KeyOf(ds[|ds| - 1]) := Recorded(ds[|ds| - 1])]
  }

  /** How many of them were news when they were written. */
  function NewsAlong(events: map<Key, Stored>, ds: seq<Difference>): nat {
    if ds == [] then 0
    else NewsAlong(events, ds[..|ds| - 1]) + if News(Upserted(events, ds[..|ds| - 1]), ds[|ds| - 1]) then 1 else 0
  }

  /** A record of one of the differences of key k. */
  ghost predicate IsOneOf(stored: Stored, ds: seq<Difference>, k: Key) {
    exists d :: d in ds && KeyOf(d) == k && stored == Recorded(d)
  }

  /** Which keys the differences leave on record, and as what. */
  lemma {:induction false} UpsertedIs(events: map<Key, Stored>, ds: seq<Difference>, k: Key)
    ensures k in Upserted(events, ds) <==> k in events || Reported(ds, k)
    ensures if Reported(ds, k) then IsOneOf(Upserted(events, ds)[k], ds, k)
            else k in events ==> Upserted(events, ds)[k] == events[k]
  {
    if ds != [] {
      var n := |ds| - 1;
      UpsertedIs(events, ds[..n], k);
      ReportedMore(ds, n, k);
      assert ds[..n + 1] == ds;
      if Reported(ds[..n], k) && KeyOf(ds[n]) != k {
        var d :| d in ds[..n] && KeyOf(d) == k && Upserted(events, ds[..n])[k] == Recorded(d);
        assert d in ds;
      }
    }
  }

  /** When no key occurs twice, the events before tell what is news, and each difference is on record. */
  lemma {:induction false} DistinctUpserted(events: map<Key, Stored>, ds: seq<Difference>)
    requires DistinctKeys(ds)
    ensures NewsAlong(events, ds) == CountNews(events, ds)
    ensures forall d :: d in ds ==> KeyOf(d) in Upserted(events, ds) && Upserted(events, ds)[KeyOf(d)] == Recorded(d)
  {
    if ds != [] {
      var n := |ds| - 1;
      DistinctUpserted(events, ds[..n]);
      UpsertedIs(events, ds[..n], KeyOf(ds[n]));
      forall d | d in ds[..n] ensures KeyOf(d) != KeyOf(ds[n]) {}
      assert ds == ds[..n] + [ds[n]];
    }
  }

  /** Close what is open and not reported. */
  function Closed(events: map<Key, Stored>, seen: set<Key>): map<Key, Stored> {
    map k | k in events :: if k in seen then events[k] else events[k].(isOpen := false)
  }

  function Seen(ds: seq<Difference>): set<Key> { set d | d in ds :: KeyOf(d) }

  /** Exactly the keys that are reported are open, each as one of its differences. */
  ghost predicate ShowsKeys(events: map<Key, Stored>, ds: seq<Difference>) {
    forall k :: if Reported(ds, k) then k in events && events[k].isOpen && IsOneOf(events[k], ds, k)
                else k in events ==> !events[k].isOpen
  }

  lemma ClosedShows(events: map<Key, Stored>, ds: seq<Difference>)
    ensures ShowsKeys(Closed(Upserted(events, ds), Seen(ds)), ds)
    ensures DistinctKeys(ds) ==> Shows(Closed(Upserted(events, ds), Seen(ds)), ds)
  {
    hide Upserted;
    SeenIsReported(ds, Seen(ds));
    forall k
      ensures Reported(ds, k) ==> k in Upserted(events, ds) && IsOneOf(Upserted(events, ds)[k], ds, k)
    {
      UpsertedIs(events, ds, k);
    }
    if DistinctKeys(ds) { DistinctUpserted(events, ds); }
  }

  /** The difference is not on record, was resolved, or is on record with another signature. */
  ghost predicate IsFresh(events: map<Key, Stored>, d: Difference) {
    var k := (d.event, d.path);
    k !in events || !events[k].isOpen || events[k].before != d.before || events[k].after != d.after
  }

  ghost function Fresh(events: map<Key, Stored>, ds: seq<Difference>): set<Difference> {
    set d | d in ds && IsFresh(events, d)
  }

  lemma NewsIffFresh(events: map<Key, Stored>, d: Difference)
    ensures News(events, d) <==> IsFresh(events, d)
  {
  }

  lemma FreshOneMore(events: map<Key, Stored>, ds: seq<Difference>, d: Difference)
    requires d !in ds
    ensures |Fresh(events, ds + [d])| == |Fresh(events, ds)| + if IsFresh(events, d) then 1 else 0
  {
    hide IsFresh;
    assert Fresh(events, ds + [d]) == Fresh(events, ds) + if IsFresh(events, d) then {d} else {};
  }

  /** What is counted is how many of these there are. */
  lemma {:induction false} NewsAreFresh(events: map<Key, Stored>, ds: seq<Difference>)
    requires DistinctKeys(ds)
    ensures CountNews(events, ds) == |Fresh(events, ds)|
  {
    hide IsFresh, News;
    if ds != [] {
      var n := |ds| - 1;
      NewsAreFresh(events, ds[..n]);
      assert ds == ds[..n] + [ds[n]];
      assert ds[n] !in ds[..n];
      FreshOneMore(events, ds[..n], ds[n]);
      NewsIffFresh(events, ds[n]);
    }
  }

  class Store {
    var events: map<Key, Stored>
    var baseline: Manifest

    /** The upserts.  `broken`: keys whose rows cannot be written. */
    method Upsert(ds: seq<Difference>, broken: set<Key>) returns (ok: bool, news: nat)
      modifies this`events
      ensures ok <==> forall d :: d in ds ==> KeyOf(d) !in broken
      ensures ok ==> events == Upserted(old(events), ds) && news == NewsAlong(old(events), ds)
      ensures
        old(events).Keys <= events.Keys && forall k :: k in old(events) && old(events)[k].isOpen ==> events[k].isOpen
    {
      news := 0;
      for i := 0 to |ds|
        invariant events == Upserted(old(events), ds[..i]) && news == NewsAlong(old(events), ds[..i])
        invariant forall d :: d in ds[..i] ==> KeyOf(d) !in broken
        invariant
          old(events).Keys <= events.Keys && forall k :: k in old(events) && old(events)[k].isOpen ==> events[k].isOpen
      {
        var d := ds[i];
        assert ds[..i + 1] == ds[..i] + [d];
        assert ds[..i + 1][..i] == ds[..i];
        if News(events, d) { news := news + 1; }
        if KeyOf(d) in broken { return false, news; }
        events := events[KeyOf(d) := Recorded(d)];
      }
      assert ds[..|ds|] == ds;
      ok := true;
    }

    /** `persistIntegrityDiffs`: when it succeeds, exactly the differences are open, and it
        has counted the ones that are news; it never resolves a difference that still exists. */
    method Persist(ds: seq<Difference>, broken: set<Key>) returns (ok: bool, news: nat)
      modifies this`events
      ensures ok ==> events == Closed(Upserted(old(events), ds), Seen(ds)) && news == NewsAlong(old(events), ds)
      ensures ok ==> ShowsKeys(events, ds)
      ensures ok && DistinctKeys(ds) ==> Shows(events, ds) && news == |Fresh(old(events), ds)|
      ensures forall k :: k in old(events) && old(events)[k].isOpen && k in Seen(ds) ==> k in events && events[k].isOpen
      ensures broken == {} ==> ok
    {
      hide Reported, CountNews, Fresh, Upserted, NewsAlong, Shows, ShowsKeys, DistinctKeys;
      ok, news := Upsert(ds, broken);
      if !ok { return; }
      ghost var upserted := events;
      var seen := Seen(ds);
      var stale := set k | k in events && events[k].isOpen && k !in seen;
      ok := Resolve(stale, broken);
      if ok {
        assert events == Closed(upserted, seen);
        ClosedShows(old(events), ds);
        if DistinctKeys(ds) {
          DistinctUpserted(old(events), ds);
          NewsAreFresh(old(events), ds);
        }
      }
    }

    /** Resolve the events whose differences are gone. */
    method Resolve(stale: set<Key>, broken: set<Key>) returns (ok: bool)
      requires stale <= events.Keys
      modifies this`events
      ensures events.Keys == old(events).Keys
      ensures forall k :: k in events && k !in stale ==> events[k] == old(events)[k]
      ensures ok ==> forall k :: k in stale ==> events[k] == old(events)[k].(isOpen := false)
      ensures ok <==> stale !! broken
    {
      var todo := stale;
      while todo != {}
        invariant todo <= stale && events.Keys == old(events).Keys && (stale - todo) !! broken
        invariant forall k ::
            k in events ==> events[k] == if k in stale - todo then old(events)[k].(isOpen := false) else old(events)[k]
        decreases |todo|
      {
        var k :| k in todo;
        if k in broken { return false; }
        events := events[k := events[k].(isOpen := false)];
        todo := todo - {k};
      }
      ok := true;
    }

    /** `applyFileIntegrityRefresh`.  A refresh that must not absorb keeps the baseline
        unless there is no difference, and what differs is on record; one that absorbs
        replaces it.  Nothing is asked of either manifest.  `touchOk`: the time of the scan can be noted
        on the baseline, once the events are written. */
    method ApplyRefresh(current: Manifest, absorb: bool, summaryOk: bool, publishOk: bool, broken: set<Key>,
        touchOk: bool)
      returns (ok: bool)
      modifies this
      ensures baseline == old(baseline) || baseline == current
      ensures absorb || !Comparable(old(baseline), current) ==> events == old(events)
      ensures old(baseline).header in {Missing, Foreign} ==>
          ok == (absorb && publishOk) && baseline == if ok then current else old(baseline)
      ensures old(baseline).header !in {Missing, Foreign} && !Comparable(old(baseline), current) ==>
          !ok && baseline == old(baseline)
      ensures Comparable(old(baseline), current) ==>
        var merged := Merge(Entries(old(baseline).lines), Entries(current.lines));
        if merged == [] then
          ok == publishOk && events == old(events) && baseline == if ok then current else old(baseline)
        else if absorb then ok == (summaryOk && publishOk) && baseline == if ok then current else old(baseline)
        else
          && baseline == old(baseline) && (ok ==> touchOk) && (broken == {} ==> ok == touchOk)
          && (ok || broken == {} ==> ShowsKeys(events, merged))
          && ((ok || broken == {}) && Sorted(Entries(old(baseline).lines)) && Sorted(Entries(current.lines)) ==>
                Shows(events, merged))
    {
      hide Shows, ShowsKeys, Merge, Sorted, Entries;
      if baseline.header in {Missing, Foreign} {
        if !absorb || !publishOk { return false; }
        baseline := current;
        return true;
      }
      if baseline.header == Malformed { return false; }
      var c := CompareManifests(baseline, current);
      if !c.Differences? { return false; }
      ghost var merged := Merge(Entries(baseline.lines), Entries(current.lines));
      SameMembers(c.ds, merged);
      if c.ds == [] {
        if publishOk { baseline := current; }
        return publishOk;
      }
      if absorb {
        if !summaryOk || !publishOk { return false; }
        baseline := current;
        return true;
      }
      var news;
      ok, news := Persist(c.ds, broken);
      if ok {
        SameShown(events, c.ds, merged);
        if Sorted(Entries(baseline.lines)) && Sorted(Entries(current.lines)) {
          DistinctDifferences(Entries(baseline.lines), Entries(current.lines), c.ds);
        }
        ok := touchOk;
      }
    }
  }

  /** Both manifests can be read to the end. */
  ghost predicate Comparable(before: Manifest, after: Manifest) {
    before.header == after.header == Matching && AllGood(before.lines) && AllGood(after.lines)
  }

  lemma SameShown(events: map<Key, Stored>, xs: seq<Difference>, ys: seq<Difference>)
    requires forall d :: d in xs <==> d in ys
    ensures ShowsKeys(events, xs) ==> ShowsKeys(events, ys)
    ensures Shows(events, xs) ==> Shows(events, ys)
  {
    forall k ensures Reported(xs, k) <==> Reported(ys, k) {}
  }

  lemma SeenIsReported(ds: seq<Difference>, seen: set<Key>)
    requires seen == set d | d in ds :: KeyOf(d)
    ensures forall k :: k in seen <==> Reported(ds, k)
  {
  }

  lemma SameMembers(xs: seq<Difference>, ys: seq<Difference>)
    requires multiset(xs) == multiset(ys)
    ensures (forall d :: d in xs <==> d in ys) && (xs == [] <==> ys == [])
  {
    forall d ensures d in xs <==> d in ys { assert d in multiset(xs) <==> d in multiset(ys); }
    if xs != [] { assert xs[0] in ys; }
    if ys != [] { assert ys[0] in xs; }
  }

  /** The differences of two sorted manifests have distinct keys. */
  lemma DistinctDifferences(before: seq<Entry>, after: seq<Entry>, ds: seq<Difference>)
    requires Sorted(before) && Sorted(after) && multiset(ds) == multiset(Merge(before, after))
    ensures DistinctKeys(ds)
  {
    MergeAscending(before, after, "");
    AscendingDistinct(Merge(before, after));
    PermutedReport(Merge(before, after), ds);
  }

  /** Recording the same differences again is no news. */
  lemma RecordedIsNotNews(events: map<Key, Stored>, ds: seq<Difference>)
    requires Shows(events, ds)
    ensures CountNews(events, ds) == 0
  {
    NothingNew(events, ds);
  }
}
