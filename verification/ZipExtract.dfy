/**
 Extracting an archive into a new staging directory: every write is bounded before it
 happens, by what is left for the entry and for the whole archive.
 */
module ZipExtract {
  import opened Common
  import opened ZipTable
  import opened ZipInspect

  /** What the next read returns: some bytes, and whether the data then goes on, ends or fails. */
  datatype Read = More(n: nat) | Last(n: nat) | Broken(n: nat)

  /** One entry and how the effects on it turn out.  `accepts[k]`: how much the file takes
      of the k-th write.  `cancelAt`: before which read the extraction is cancelled. */
  datatype File = File(
    isDir: bool, regular: bool, declared: nat, dirsOk: bool, openOk: bool,
    incoming: seq<Read>, accepts: seq<nat>, cancelAt: nat, closeOk: bool)

  datatype Stop = AtEnd | OverLimit(code: Code) | Stopped

  datatype Outcome = Extracted | Refused(code: Code) | ExtractFailed

  /** Right after a write: the bytes in the file being written and in the whole staging directory. */
  datatype Moment = Moment(entry: nat, overall: nat)

  ghost predicate Bounded(ms: seq<Moment>, p: Policy) {
    forall i :: 0 <= i < |ms| ==> ms[i].entry <= p.maxEntry && ms[i].overall <= p.maxTotal
  }

  /** All the bytes a read sequence offers, up to its end. */
  function Offered(rs: seq<Read>, i: nat): nat
    decreases |rs| - i
  {
    if i >= |rs| then 0 else if rs[i].More? then rs[i].n + Offered(rs, i + 1) else rs[i].n
  }

  /** From the i-th read on, nothing is cancelled, no read fails and no write is cut short. */
  predicate Ends(f: File, i: nat)
    decreases |f.incoming| - i
  {
    i >= |f.incoming| || (
      && i < f.cancelAt && !f.incoming[i].Broken?
      && (i < |f.accepts| ==> f.incoming[i].n <= f.accepts[i])
      && (f.incoming[i].Last? || Ends(f, i + 1)))
  }

  /** From the i-th read on, more than `left` bytes are offered before anything goes wrong. */
  predicate Exceeds(f: File, i: nat, left: nat)
    decreases |f.incoming| - i
  {
    && i < |f.incoming| && i < f.cancelAt
    && (|| f.incoming[i].n > left
        || (&& (i < |f.accepts| ==> f.incoming[i].n <= f.accepts[i])
            && f.incoming[i].More? && Exceeds(f, i + 1, left - f.incoming[i].n)))
  }

  lemma ExceedsStep(f: File, i: nat, left: nat)
    requires i < |f.incoming|
    ensures var r := f.incoming[i];
      Exceeds(f, i, left) <==>
        && i < f.cancelAt
        && (r.n > left || ((i < |f.accepts| ==> r.n <= f.accepts[i]) && r.More? && Exceeds(f, i + 1, left - r.n)))
  {
  }

  /** What is copied to the end offers no more than it wrote. */
  lemma {:induction false} EndsWithin(f: File, i: nat, left: nat)
    requires Ends(f, i)
    ensures Exceeds(f, i, left) <==> Offered(f.incoming, i) > left
    decreases |f.incoming| - i
  {
    if i < |f.incoming| && f.incoming[i].More? && f.incoming[i].n <= left {
      EndsWithin(f, i + 1, left - f.incoming[i].n);
    }
  }

  /** An entry on which nothing goes wrong and which holds what was declared. */
  predicate Sound(f: File, p: Policy) {
    f.dirsOk && (f.isDir || (
      && f.regular && f.openOk && f.closeOk
      && Ends(f, 0) && f.declared == Offered(f.incoming, 0) <= p.maxEntry))
  }

  /** `extractLimitWriter`, on a file that starts empty when `base` bytes have been written to others. */
  class ExtractLimitWriter {
    var remaining: nat
    const code: Code
    const limit: nat
    const base: nat
    var written: nat
    var moments: seq<Moment>

    /** The writer never lets more than its limit through. */
    ghost predicate Valid()
      reads this
    {
      && written + remaining == limit
      && forall i :: 0 <= i < |moments| ==> moments[i].entry <= limit && moments[i].overall == base + moments[i].entry
    }

    constructor (limit: nat, code: Code, base: nat)
      ensures Valid() && written == 0 && this.limit == limit && this.code == code && this.base == base && moments == []
    {
      this.limit, this.code, this.base := limit, code, base;
      remaining, written, moments := limit, 0, [];
    }

    /** Write n bytes of which the file takes at most `accepts`. */
    method Write(n: nat, accepts: nat) returns (done: nat, refused: bool)
      requires Valid()
      modifies this
      ensures Valid()
      ensures refused <==> n > old(remaining)
      ensures done == if refused then 0 else if accepts < n then accepts else n
      ensures written == old(written) + done
      ensures moments == old(moments) + if refused then [] else [Moment(written, base + written)]
    {
      if n > remaining { return 0, true; }
      done, refused := if accepts < n then accepts else n, false;
      remaining := remaining - done;
      written := written + done;
      moments := moments + [Moment(written, base + written)];
    }

    /** `copyWithContext`: copy until the data ends, a write is refused or cut short, or reading fails. */
    method Copy(f: File) returns (total: nat, stop: Stop)
      requires Valid() && written == 0
      modifies this
      ensures Valid() && total == written
      ensures stop == AtEnd ==> total == Offered(f.incoming, 0)
      ensures stop == AtEnd <==> Ends(f, 0) && Offered(f.incoming, 0) <= limit
      ensures stop.OverLimit? ==> stop.code == code && Offered(f.incoming, 0) > limit
      ensures stop.OverLimit? <==> Exceeds(f, 0, limit)
      ensures old(moments) <= moments && (moments == old(moments) ==> total == 0)
      ensures |moments| > |old(moments)| ==> moments[|moments| - 1] == Moment(total, base + total)
    {
      total := 0;
      var i := 0;
      while i < |f.incoming|
        invariant 0 <= i <= |f.incoming| && Valid() && total == written
        invariant total + Offered(f.incoming, i) == Offered(f.incoming, 0)
        invariant Ends(f, i) == Ends(f, 0) && Exceeds(f, i, remaining) == Exceeds(f, 0, limit)
        invariant old(moments) <= moments && (moments == old(moments) ==> total == 0)
        invariant |moments| > |old(moments)| ==> moments[|moments| - 1] == Moment(total, base + total)
      {
        ghost var left := remaining;
        ExceedsStep(f, i, left);
        if i >= f.cancelAt { return total, Stopped; }
        var r := f.incoming[i];
        if r.n > 0 {
          var done, refused := Write(r.n, if i < |f.accepts| then f.accepts[i] else r.n);
          total := total + done;
          if refused { return total, OverLimit(code); }
          if done != r.n { return total, Stopped; }
        }
        if r.Last? { return total, AtEnd; }
        if r.Broken? { return total, Stopped; }
        i := i + 1;
      }
      stop := AtEnd;
    }
  }

  function Declared(fs: seq<File>, n: nat): nat
    requires n <= |fs|
  {
    if n == 0 then 0 else Declared(fs, n - 1) + if fs[n - 1].isDir then 0 else fs[n - 1].declared
  }

  /** The limit of the i-th file, and the code of a refusal: its own, or what is left of the whole. */
  ghost predicate RefusedAt(fs: seq<File>, p: Policy, i: nat, code: Code) {
    && i < |fs| && (forall j :: 0 <= j < i ==> Sound(fs[j], p)) && Declared(fs, i) <= p.maxTotal
    && var f, left := fs[i], p.maxTotal - Declared(fs, i);
       && !f.isDir && f.regular && f.dirsOk && f.openOk
       && Exceeds(f, 0, if left < p.maxEntry then left else p.maxEntry)
       && code == if left < p.maxEntry then TotalTooLarge else EntryTooLarge
  }

  /** An entry that is sound and fits is not refused, and none after one that is not. */
  lemma RefusedOnce(fs: seq<File>, p: Policy, i: nat)
    requires i <= |fs| && (forall j :: 0 <= j < i ==> Sound(fs[j], p)) && Declared(fs, i) <= p.maxTotal
    ensures forall k: nat, code :: RefusedAt(fs, p, k, code) ==>
      i <= k < |fs| && (i < |fs| && !(Sound(fs[i], p) && Declared(fs, i + 1) <= p.maxTotal) ==> k == i)
  {
    hide Ends, Offered, Exceeds;
    forall k: nat, code ensures RefusedAt(fs, p, k, code) ==>
        i <= k < |fs| && (i < |fs| && !(Sound(fs[i], p) && Declared(fs, i + 1) <= p.maxTotal) ==> k == i)
    {
      if k < i {
        DeclaredUpTo(fs, k + 1, i);
        var left := p.maxTotal - Declared(fs, k);
        if Ends(fs[k], 0) && left >= 0 { EndsWithin(fs[k], 0, if left < p.maxEntry then left else p.maxEntry); }
      } else if i < k <= |fs| {
        DeclaredUpTo(fs, i + 1, k);
      }
    }
  }

  /** The declared sizes only add up. */
  lemma {:induction false} DeclaredUpTo(fs: seq<File>, n: nat, m: nat)
    requires n <= m <= |fs|
    ensures Declared(fs, n) <= Declared(fs, m)
    decreases m - n
  {
    if n < m { DeclaredUpTo(fs, n + 1, m); }
  }

  /** One entry, when `total` bytes have been written for those before. */
  method ExtractEntry(fs: seq<File>, i: nat, p: Policy, total: nat)
    returns (bad: Option<Outcome>, written: nat, moments: seq<Moment>)
    requires i < |fs| && (forall j :: 0 <= j < i ==> Sound(fs[j], p)) && total == Declared(fs, i) <= p.maxTotal
    ensures bad.None? <==> Sound(fs[i], p) && Declared(fs, i + 1) <= p.maxTotal
    ensures bad.None? ==> total + written == Declared(fs, i + 1)
    ensures Bounded(moments, p)
    ensures written > 0 ==> moments != [] && moments[|moments| - 1].overall == total + written
    ensures bad.Some? ==>
      && bad.value != Extracted && (forall code :: RefusedAt(fs, p, i, code) ==> bad.value == Refused(code))
      && (bad.value.Refused? ==> bad.value.code == TypeForbidden || RefusedAt(fs, p, i, bad.value.code))
    ensures bad == Some(Refused(EntryTooLarge)) ==> Offered(fs[i].incoming, 0) > p.maxEntry
  {
    hide Ends, Offered, Exceeds;
    var f := fs[i];
    bad, written, moments := Some(ExtractFailed), 0, [];
    if !f.isDir && !f.regular { return Some(Refused(TypeForbidden)), 0, []; }
    if !f.dirsOk { return; }
    if f.isDir { return None, 0, []; }
    if !f.openOk { return; }
    var remainingTotal := p.maxTotal - total;
    var limit, code := p.maxEntry, EntryTooLarge;
    if remainingTotal < limit {
      limit, code := remainingTotal, TotalTooLarge;
    }
    var writer := new ExtractLimitWriter(limit, code, total);
    var stop;
    written, stop := writer.Copy(f);
    moments := writer.moments;
    if Ends(f, 0) { EndsWithin(f, 0, limit); }
    if stop.OverLimit? { return Some(Refused(stop.code)), written, moments; }
    if stop.Stopped? || !f.closeOk || written != f.declared { return; }
    bad := None;
  }

  /** The loop of `extractZIPToNewStaging`.  Whatever the archive really holds and however
      the extraction ends, after no write does a file or the whole exceed the policy.  It
      succeeds exactly when nothing goes wrong on any entry, every file holds what was
      declared for it, and the limits suffice. */
  method ExtractFiles(fs: seq<File>, p: Policy) returns (r: Outcome, total: nat, moments: seq<Moment>)
    requires p.maxTotal <= MAX_UINT64 && p.maxEntry <= MAX_UINT64
    ensures Bounded(moments, p) && total <= p.maxTotal
    ensures total > 0 ==> exists k :: 0 <= k < |moments| && moments[k].overall == total
    ensures r == Extracted <==> (forall i :: 0 <= i < |fs| ==> Sound(fs[i], p)) && Declared(fs, |fs|) <= p.maxTotal
    ensures r == Extracted ==> total == Declared(fs, |fs|)
    ensures
      r.Refused? && r.code == EntryTooLarge ==> exists i :: 0 <= i < |fs| && Offered(fs[i].incoming, 0) > p.maxEntry
    ensures forall i: nat, code :: RefusedAt(fs, p, i, code) ==> r == Refused(code)
    ensures r.Refused? ==> r.code == TypeForbidden || exists i: nat :: RefusedAt(fs, p, i, r.code)
  {
    hide Sound, Offered, RefusedAt;
    total, moments := 0, [];
    for i := 0 to |fs|
      invariant Bounded(moments, p) && total == Declared(fs, i) <= p.maxTotal
      invariant forall j :: 0 <= j < i ==> Sound(fs[j], p)
      invariant total > 0 ==> exists k :: 0 <= k < |moments| && moments[k].overall == total
    {
      DeclaredUpTo(fs, i + 1, |fs|);
      RefusedOnce(fs, p, i);
      ghost var before := moments;
      var bad, written, more := ExtractEntry(fs, i, p, total);
      moments := moments + more;
      assert forall k :: 0 <= k < |before| ==> moments[k] == before[k];
      if written > 0 { assert moments[|moments| - 1].overall == total + written; }
      if bad.Some? { return bad.value, total, moments; }
      total := total + written;
    }
    r := Extracted;
    RefusedOnce(fs, p, |fs|);
  }
}
