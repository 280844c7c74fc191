/**
 The directory pass over the bytes of an archive: what is accepted lies side by side in
 the file.  Reading a header changes nothing, so it makes no difference that the headers
 of all entries are read before the other checks.
 */
module ZipArchive {
  import opened Common
  import opened ZipInspect
  import opened ZipHeader

  /** An entry of the central directory; `offset`: where its data begins, if that can be told. */
  datatype Member = Member(zf: Central, utf8: bool, mode: Mode, offset: Option<int>)

  function Text(name: seq<byte>): string { seq(|name|, i requires 0 <= i < |name| => name[i] as char) }

  /** Not encrypted, and stored or deflated. */
  ghost predicate PlainData(zf: Central) { zf.flags % 2 == 0 && zf.compression in {0, 8} }

  ghost function EntryFor(m: Member, range: Option<Range>): Entry {
    Entry(Text(m.zf.name), m.utf8, PlainData(m.zf), m.mode, m.zf.uncompressed, m.zf.compressed, range)
  }

  /** The only local header of m, its data and its descriptor are the bytes r of the file. */
  ghost predicate LiesAt(file: seq<byte>, m: Member, r: Range) {
    && m.offset.Some? && 30 <= m.offset.value <= |file|
    && Occupies(file, m.offset.value, m.zf, r) && SizesMatch(file, r.start, m.offset.value, m.zf)
  }

  ghost predicate AllLieAt(file: seq<byte>, ms: seq<Member>, rs: seq<Range>) {
    |rs| == |ms| && forall i :: 0 <= i < |ms| ==> LiesAt(file, ms[i], rs[i])
  }

  ghost function EntriesAt(ms: seq<Member>, rs: seq<Range>): seq<Entry>
    requires |rs| == |ms|
  {
    seq(|ms|, i requires 0 <= i < |ms| => EntryFor(ms[i], Some(rs[i])))
  }

  /** An entry lies at one place only. */
  lemma LiesAtOnce(file: seq<byte>, m: Member, x: Range, y: Range)
    requires LiesAt(file, m, x) && LiesAt(file, m, y)
    ensures x == y
  {
    hide HeaderAt, SizesMatch, U16, Descriptor;
  }

  /** `validateLocalHeader` for one entry. */
  method Locate(file: seq<byte>, m: Member) returns (r: Option<Range>)
    ensures r.Some? ==> LiesAt(file, m, r.value) && 0 <= r.value.start < r.value.end <= |file|
    ensures r.None? ==> forall x :: !LiesAt(file, m, x)
  {
    hide Occupies, SizesMatch;
    if m.offset.None? { return None; }
    r := ValidateLocalHeader(file, m.offset.value, m.zf);
    if r.Some? { StartsInFile(file, m, r.value); }
  }

  lemma StartsInFile(file: seq<byte>, m: Member, r: Range)
    requires LiesAt(file, m, r)
    ensures 0 <= r.start
  {
    hide HeaderAt, SizesMatch, U16, Descriptor;
  }

  /** The directory pass of `inspectOpenZIP`.  A directory is accepted if and only if all its
      entries have valid headers and it is acceptable with the places these give; and then
      no two entries share a byte of the file. */
  method InspectArchive(file: seq<byte>, ms: seq<Member>, p: Policy) returns (r: Report, ghost rs: seq<Range>)
    ensures r.Accepted? ==> AllLieAt(file, ms, rs) && Acceptable(EntriesAt(ms, rs), p)
    ensures r.Accepted? ==> forall i, j :: 0 <= i < j < |rs| ==> Disjoint(rs[i], rs[j])
    ensures r.Rejected? ==> forall xs :: AllLieAt(file, ms, xs) ==> !Acceptable(EntriesAt(ms, xs), p)
  {
    hide LiesAt, Acceptable, Text;
    var es: seq<Entry> := [];
    rs := [];
    for n := 0 to |ms|
      invariant |es| == n && forall i :: 0 <= i < n ==> es[i] == EntryFor(ms[i], es[i].range)
      invariant forall i :: 0 <= i < n && es[i].range.Some? ==>
        LiesAt(file, ms[i], es[i].range.value) && es[i].range.value.start < es[i].range.value.end
      invariant forall i :: 0 <= i < n && es[i].range.None? ==> forall x :: !LiesAt(file, ms[i], x)
    {
      var range := Locate(file, ms[n]);
      var zf := ms[n].zf;
      var plain := zf.flags % 2 == 0 && (zf.compression == 0 || zf.compression == 8);
      es := es + [Entry(Text(zf.name), ms[n].utf8, plain, ms[n].mode, zf.uncompressed, zf.compressed, range)];
    }
    r := InspectEntries(es, p);
    if r.Accepted? {
      RangesGiven(es, p);
      rs := Ranges(es);
      assert es == EntriesAt(ms, rs);
    } else {
      forall xs | AllLieAt(file, ms, xs) ensures !Acceptable(EntriesAt(ms, xs), p) {
        forall i | 0 <= i < |ms| ensures es[i] == EntryFor(ms[i], Some(xs[i])) {
          assert LiesAt(file, ms[i], xs[i]);
          LiesAtOnce(file, ms[i], es[i].range.value, xs[i]);
        }
        assert es == EntriesAt(ms, xs);
      }
    }
  }

  /** Of an acceptable directory every entry has a place, and the places are disjoint. */
  lemma RangesGiven(es: seq<Entry>, p: Policy)
    requires Acceptable(es, p)
    ensures |Ranges(es)| == |es| && forall i :: 0 <= i < |es| ==> es[i].range == Some(Ranges(es)[i])
    ensures forall i, j :: 0 <= i < j < |es| ==> Disjoint(Ranges(es)[i], Ranges(es)[j])
  {
    hide PrefixOk, Disjoint;
    HaveRanges(es, p);
    var f := (x: Range, y: Range) => Disjoint(x, y);
    forall i, j | 0 <= i < j < |es| ensures Disjoint(Ranges(es)[i], Ranges(es)[j]) {
      assert f(Ranges(es)[i], Ranges(es)[j]);
    }
  }
}
