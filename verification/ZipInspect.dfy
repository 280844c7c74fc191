/** The entries of a ZIP archive: what they declare, where they lie, and when they are accepted. */
module ZipInspect {
  import opened Common
  import opened Permutations
  import opened ZipTable

  const MAX_UINT64: nat := 0xFFFF_FFFF_FFFF_FFFF

  // ----- the ratio, without a product that could overflow -----

  /** `exceedsRatio`. */
  function ExceedsRatio(uncompressed: nat, compressed: nat, limit: nat): (r: bool)
    ensures r <==> uncompressed > limit * compressed
  {
    if uncompressed == 0 then false
    else if compressed == 0 then true
    else
      var (quotient, remainder) := (uncompressed / compressed, uncompressed % compressed);
      assert uncompressed == quotient * compressed + remainder;
      QuotientExact(quotient, compressed, remainder, limit);
      quotient > limit || (quotient == limit && remainder > 0)
  }

  lemma QuotientExact(q: nat, c: nat, r: nat, limit: nat)
    requires r < c
    ensures q * c + r > limit * c <==> q > limit || (q == limit && r > 0)
  {
    if q > limit {
      assert q * c >= (limit + 1) * c;
    } else if q < limit {
      assert (q + 1) * c <= limit * c;
    }
  }

  // ----- byte ranges -----

  datatype Range = Range(start: int, end: int)

  ghost predicate Disjoint(x: Range, y: Range) { x.end <= y.start || y.end <= x.start }

  ghost predicate AllDisjoint(rs: seq<Range>) { Pairwise(rs, (x: Range, y: Range) => Disjoint(x, y)) }

  predicate InOrder(rs: seq<Range>) { forall i, j :: 0 <= i < j < |rs| ==> rs[i].start <= rs[j].start }

  method InsertRange(rs: seq<Range>, r: Range) returns (out: seq<Range>)
    requires InOrder(rs)
    ensures InOrder(out) && multiset(out) == multiset(rs) + multiset{r}
  {
    var k := |rs|;
    while k > 0 && rs[k - 1].start > r.start
      invariant 0 <= k <= |rs| && forall i :: k <= i < |rs| ==> rs[i].start > r.start
    {
      k := k - 1;
    }
    InsertedInOrder(rs, k, r);
    InsertedMultiset(rs, k, r);
    out := Inserted(rs, k, r);
  }

  function Inserted(rs: seq<Range>, k: nat, r: Range): seq<Range>
    requires k <= |rs|
  {
    rs[..k] + [r] + rs[k..]
  }

  lemma InsertedAt(rs: seq<Range>, k: nat, r: Range, i: nat)
    requires k <= |rs| && i <= |rs|
    ensures Inserted(rs, k, r)[i] == if i < k then rs[i] else if i == k then r else rs[i - 1]
  {
  }

  lemma InsertedInOrder(rs: seq<Range>, k: nat, r: Range)
    requires InOrder(rs) && k <= |rs| && (k > 0 ==> rs[k - 1].start <= r.start)
    requires forall i :: k <= i < |rs| ==> rs[i].start > r.start
    ensures InOrder(Inserted(rs, k, r))
  {
    var out := Inserted(rs, k, r);
    forall i, j | 0 <= i < j < |out| ensures out[i].start <= out[j].start {
      InsertedAt(rs, k, r, i);
      InsertedAt(rs, k, r, j);
      hide Inserted;
      if i < k && j == k && i < k - 1 { assert rs[i].start <= rs[k - 1].start; }
    }
  }

  lemma InsertedMultiset(rs: seq<Range>, k: nat, r: Range)
    requires k <= |rs|
    ensures multiset(Inserted(rs, k, r)) == multiset(rs) + multiset{r}
  {
    assert rs == rs[..k] + rs[k..];
  }

  method SortRanges(rs: seq<Range>) returns (out: seq<Range>)
    ensures InOrder(out) && multiset(out) == multiset(rs)
  {
    out := [];
    for n := 0 to |rs|
      invariant InOrder(out) && multiset(out) == multiset(rs[..n])
    {
      out := InsertRange(out, rs[n]);
      assert rs[..n + 1] == rs[..n] + [rs[n]];
    }
    assert rs[..|rs|] == rs;
  }

  /** In sorted order it is enough to compare neighbours. */
  lemma {:induction false} NeighboursSuffice(rs: seq<Range>, i: nat, j: nat)
    requires InOrder(rs) && (forall k :: 0 <= k < |rs| ==> rs[k].start < rs[k].end)
    requires (forall k :: 1 <= k < |rs| ==> rs[k - 1].end <= rs[k].start) && i < j < |rs|
    ensures rs[i].end <= rs[j].start
    decreases j
  {
    if i < j - 1 { NeighboursSuffice(rs, i, j - 1); }
  }

  /** The check on the sorted ranges: it passes exactly when no two ranges overlap. */
  method Overlap(rs: seq<Range>) returns (bad: bool)
    requires forall k :: 0 <= k < |rs| ==> rs[k].start < rs[k].end
    ensures bad <==> !AllDisjoint(rs)
  {
    var sorted := SortRanges(rs);
    SamePairs(rs, sorted);
    forall k | 0 <= k < |sorted| ensures sorted[k].start < sorted[k].end {
      assert sorted[k] in multiset(sorted);
      assert sorted[k] in rs;
    }
    var i := 1;
    while i < |sorted|
      invariant 1 <= i && (i <= |sorted| || sorted == [])
      invariant forall k :: 1 <= k < i && k < |sorted| ==> sorted[k - 1].end <= sorted[k].start
    {
      if sorted[i].start < sorted[i - 1].end {
        assert !Disjoint(sorted[i - 1], sorted[i]);
        return true;
      }
      i := i + 1;
    }
    forall i, j | 0 <= i < j < |sorted| ensures Disjoint(sorted[i], sorted[j]) { NeighboursSuffice(sorted, i, j); }
    bad := false;
  }

  lemma SamePairs(a: seq<Range>, b: seq<Range>)
    requires multiset(a) == multiset(b)
    ensures AllDisjoint(a) <==> AllDisjoint(b)
  {
    var f := (x: Range, y: Range) => Disjoint(x, y);
    if Pairwise(a, f) { PairwisePermuted(a, b, f); }
    if Pairwise(b, f) { PairwisePermuted(b, a, f); }
  }

  // ----- acceptance does not depend on the order of the entries -----

  ghost predicate Fit(x: Name, y: Name) {
    x.path != y.path && (x.isDir || !Above(x.path, y.path)) && (y.isDir || !Above(y.path, x.path))
  }

  lemma CompatiblePairs(names: seq<Name>)
    ensures Compatible(names) <==> Pairwise(names, (x: Name, y: Name) => Fit(x, y))
  {
    hide Above;
    forall i | 0 <= i < |names| ensures !Above(names[i].path, names[i].path) { NotAboveItself(names[i].path); }
    var f := (x: Name, y: Name) => Fit(x, y);
    if Pairwise(names, f) {
      forall i, j | 0 <= i < j < |names| ensures Fit(names[i], names[j]) { assert f(names[i], names[j]); }
    }
  }

  lemma OrderDoesNotMatter(a: seq<Name>, b: seq<Name>)
    requires multiset(a) == multiset(b)
    ensures Compatible(a) <==> Compatible(b)
  {
    hide Fit;
    CompatiblePairs(a);
    CompatiblePairs(b);
    var f := (x: Name, y: Name) => Fit(x, y);
    FitSymmetric();
    if Pairwise(a, f) { PairwisePermuted(a, b, f); }
    if Pairwise(b, f) { PairwisePermuted(b, a, f); }
  }

  lemma FitSymmetric()
    ensures Symmetric((x: Name, y: Name) => Fit(x, y))
  {
    hide Above;
  }

  // ----- the whole directory -----

  datatype Mode = DirMode | RegularMode | OtherMode

  /** `plain`: not encrypted, stored or deflated.  `range`: what the local header occupies, if it is valid. */
  datatype Entry = Entry(raw: string, utf8: bool, plain: bool, mode: Mode, uncompressed: nat, compressed: nat,
      range: Option<Range>)

  datatype Policy = Policy(maxEntries: nat, maxEntry: nat, maxTotal: nat, maxRatio: nat)

  datatype Report = Accepted(declared: nat, names: seq<string>) | Rejected(code: Code)

  function NameOf(e: Entry): Name
  {
    Name(Trimmed(e.raw), e.raw != "" && e.raw[|e.raw| - 1] == '/')
  }

  function Names(es: seq<Entry>): seq<Name> { seq(|es|, i requires 0 <= i < |es| => NameOf(es[i])) }

  ghost function Ranges(es: seq<Entry>): seq<Range> {
    seq(|es|, i requires 0 <= i < |es| => if es[i].range.Some? then es[i].range.value else Range(0, 1))
  }

  function Uncompressed(es: seq<Entry>): nat {
    if es == [] then 0 else Uncompressed(es[..|es| - 1]) + es[|es| - 1].uncompressed
  }

  function Compressed(es: seq<Entry>): nat {
    if es == [] then 0 else Compressed(es[..|es| - 1]) + es[|es| - 1].compressed
  }

  /** What one entry must meet by itself. */
  ghost predicate EntryOk(e: Entry, p: Policy) {
    && e.utf8 && WellFormed(e.raw) && e.plain && e.mode == (if NameOf(e).isDir then DirMode else RegularMode)
    && e.uncompressed <= p.maxEntry && e.uncompressed <= p.maxRatio * e.compressed
    && e.range.Some?
  }

  /** What a prefix of the directory must meet. */
  ghost predicate PrefixOk(es: seq<Entry>, p: Policy) {
    && AllOk(es, p)
    && Compatible(Names(es))
    && Uncompressed(es) <= p.maxTotal && Uncompressed(es) <= MAX_UINT64 && Compressed(es) <= MAX_UINT64
  }

  ghost predicate Acceptable(es: seq<Entry>, p: Policy) {
    && 0 < |es| <= p.maxEntries && PrefixOk(es, p)
    && Uncompressed(es) <= p.maxRatio * Compressed(es)
    && AllDisjoint(Ranges(es))
  }

  lemma SumsGrow(es: seq<Entry>, n: nat)
    requires n < |es|
    ensures Uncompressed(es[..n + 1]) == Uncompressed(es[..n]) + es[n].uncompressed
    ensures Compressed(es[..n + 1]) == Compressed(es[..n]) + es[n].compressed
  {
    assert es[..n + 1][..n] == es[..n];
  }

  lemma ListsGrow(es: seq<Entry>, n: nat)
    requires n < |es|
    ensures Names(es[..n + 1]) == Names(es[..n]) + [NameOf(es[n])]
    ensures es[n].range.Some? ==> Ranges(es[..n + 1]) == Ranges(es[..n]) + [es[n].range.value]
  {
    hide NameOf;
  }

  ghost predicate AllOk(es: seq<Entry>, p: Policy) { forall i :: 0 <= i < |es| ==> EntryOk(es[i], p) }

  lemma AllOkGrows(es: seq<Entry>, n: nat, p: Policy)
    requires n < |es|
    ensures AllOk(es[..n + 1], p) <==> AllOk(es[..n], p) && EntryOk(es[n], p)
  {
    hide EntryOk;
    assert es[..n + 1][n] == es[n];
    assert forall i :: 0 <= i < n ==> es[..n + 1][i] == es[..n][i];
  }

  /** One more entry. */
  lemma PrefixGrows(es: seq<Entry>, n: nat, p: Policy)
    requires n < |es|
    ensures PrefixOk(es[..n + 1], p) <==>
      && PrefixOk(es[..n], p) && EntryOk(es[n], p) && Compatible(Names(es[..n]) + [NameOf(es[n])])
      && Uncompressed(es[..n]) + es[n].uncompressed <= p.maxTotal
      && Uncompressed(es[..n]) + es[n].uncompressed <= MAX_UINT64
      && Compressed(es[..n]) + es[n].compressed <= MAX_UINT64
  {
    hide EntryOk, NameOf, Compatible, AllOk, Names, Uncompressed, Compressed;
    SumsGrow(es, n);
    ListsGrow(es, n);
    AllOkGrows(es, n, p);
    CompatibleAppend(Names(es[..n]), NameOf(es[n]));
  }

  /** A bad prefix stays bad. */
  lemma {:induction false} BadPrefix(es: seq<Entry>, n: nat, p: Policy)
    requires n <= |es| && !PrefixOk(es[..n], p)
    ensures !PrefixOk(es, p)
    decreases |es| - n
  {
    hide PrefixOk;
    if n == |es| {
      assert es[..n] == es;
    } else {
      PrefixGrows(es, n, p);
      BadPrefix(es, n + 1, p);
    }
  }

  /** The checks on one entry, in their order.  The path table has been asked already. */
  method CheckEntry(e: Entry, p: Policy, declared: nat, compressed: nat) returns (bad: Option<Code>)
    requires declared <= p.maxTotal && declared <= MAX_UINT64 && compressed <= MAX_UINT64
    requires e.utf8 && WellFormed(e.raw)
    ensures bad.None? <==> EntryOk(e, p)
                           && declared + e.uncompressed <= p.maxTotal && declared + e.uncompressed <= MAX_UINT64
                           && compressed + e.compressed <= MAX_UINT64
  {
    if !e.plain || e.mode != (if NameOf(e).isDir then DirMode else RegularMode) { return Some(TypeForbidden); }
    if e.uncompressed > p.maxEntry { return Some(EntryTooLarge); }
    if MAX_UINT64 - declared < e.uncompressed || declared + e.uncompressed > p.maxTotal { return Some(TotalTooLarge); }
    if MAX_UINT64 - compressed < e.compressed || ExceedsRatio(e.uncompressed, e.compressed, p.maxRatio) {
      return Some(RatioExceeded);
    }
    if e.range.None? { return Some(HeaderMismatch); }
    bad := None;
  }

  /** The directory pass of `inspectOpenZIP`: it accepts exactly the acceptable directories. */
  method InspectEntries(es: seq<Entry>, p: Policy) returns (r: Report)
    requires forall i :: 0 <= i < |es| && es[i].range.Some? ==> es[i].range.value.start < es[i].range.value.end
    ensures r.Accepted? <==> Acceptable(es, p)
    ensures r.Accepted? ==> r.declared == Uncompressed(es) && |r.names| == |es|
    ensures r.Accepted? ==> forall i :: 0 <= i < |es| ==> r.names[i] == NameOf(es[i]).path
  {
    hide PrefixOk, EntryOk, Compatible, WellFormed, Names, Ranges, Uncompressed, Compressed, AllDisjoint, NameOf,
        Trimmed;
    if |es| == 0 { return Rejected(InvalidZip); }
    if |es| > p.maxEntries { return Rejected(TooManyEntries); }
    var table := new PathTable();
    var declared: nat, compressed: nat := 0, 0;
    var ranges: seq<Range> := [];
    var names: seq<string> := [];
    EmptyPrefix(es, p);
    for n := 0 to |es|
      invariant table.Valid() && fresh(table) && table.seen == Names(es[..n])
      invariant declared == Uncompressed(es[..n]) && compressed == Compressed(es[..n]) && PrefixOk(es[..n], p)
      invariant ranges == Ranges(es[..n])
      invariant |names| == n && forall i :: 0 <= i < n ==> names[i] == NameOf(es[i]).path
      invariant declared <= p.maxTotal && declared <= MAX_UINT64 && compressed <= MAX_UINT64
    {
      PrefixGrows(es, n, p);
      SumsGrow(es, n);
      ListsGrow(es, n);
      var e := es[n];
      var name, code := NormalizeName(e.raw, e.utf8);
      if name.None? {
        NotOk(e, p);
        BadPrefix(es, n + 1, p);
        return Rejected(code);
      }
      assert name.value == NameOf(e) by { NormalizedIsNameOf(e, name.value); }
      var fits := table.Add(name.value);
      var bad := CheckEntry(e, p, declared, compressed);
      if !fits || bad.Some? {
        BadPrefix(es, n + 1, p);
        return Rejected(if fits then bad.value else DuplicatePath);
      }
      declared, compressed := declared + e.uncompressed, compressed + e.compressed;
      HasRange(e, p);
      ranges := ranges + [e.range.value];
      names := names + [name.value.path];
    }
    assert es[..|es|] == es;
    if ExceedsRatio(declared, compressed, p.maxRatio) { return Rejected(RatioExceeded); }
    HaveRanges(es, p);
    var overlap := Overlap(ranges);
    if overlap { return Rejected(HeaderMismatch); }
    r := Accepted(declared, names);
  }

  lemma EmptyPrefix(es: seq<Entry>, p: Policy)
    ensures PrefixOk(es[..0], p) && Uncompressed(es[..0]) == 0 && Compressed(es[..0]) == 0 && Names(es[..0]) == []
    ensures Ranges(es[..0]) == []
  {
  }

  lemma NormalizedIsNameOf(e: Entry, n: Name)
    requires n.path + (if n.isDir then "/" else "") == e.raw && n.path == Trimmed(e.raw) && e.raw != ""
    ensures n == NameOf(e)
  {
    if n.isDir {
      assert e.raw[|e.raw| - 1] == '/';
    } else {
      assert n.path + "" == n.path;
    }
  }

  lemma NotOk(e: Entry, p: Policy)
    requires !e.utf8 || !WellFormed(e.raw)
    ensures !EntryOk(e, p)
  {
  }

  lemma HasRange(e: Entry, p: Policy)
    requires EntryOk(e, p)
    ensures e.range.Some?
  {
  }

  lemma HaveRanges(es: seq<Entry>, p: Policy)
    requires PrefixOk(es, p)
    ensures
      |Ranges(es)| == |es| && forall i :: 0 <= i < |es| ==> es[i].range.Some? && Ranges(es)[i] == es[i].range.value
  {
    forall i | 0 <= i < |es| ensures es[i].range.Some? { HasRange(es[i], p); }
  }
}
