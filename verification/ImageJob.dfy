/**
 One image optimisation job of a site: which files it skips, the fingerprints it keeps,
 and the sizes it reports back to WordPress in batches.
 */
module ImageJob {
  const FLUSH_SIZE: nat := 50

  /** What a scan sees of a file. */
  datatype Stat = Stat(size: int, mtime: int)

  datatype Candidate = Candidate(path: string, stat: Stat)

  datatype Optimised = Rewritten(before: int, after: int, mtime: int) | Error

  /** One turn of the loop.  `stopBefore`, `stopDuring`: the stop button is pressed before the
      file, or while it is being processed. */
  datatype Turn = Turn(stopBefore: bool, stopDuring: bool, result: Optimised, saved: bool, flushed: bool)

  datatype Status = Succeeded | Stopped | FlushFailed

  /** The job stops at this turn. */
  predicate Stops(t: Turn) { t.stopBefore || (t.stopDuring && t.result.Error?) }

  /** p is one of the first n files, and its turn satisfies what `Shrinks` or `Saves` says. */
  ghost predicate Among(cs: seq<Candidate>, turns: seq<Turn>, n: nat, p: string, which: Turn -> bool) {
    exists i :: 0 <= i < n && i < |cs| && i < |turns| && cs[i].path == p && which(turns[i])
  }

  predicate Shrinks(t: Turn) { t.result.Rewritten? && t.result.after < t.result.before }

  predicate Saves(t: Turn) { t.result.Rewritten? && t.saved }

  lemma AmongOne(cs: seq<Candidate>, turns: seq<Turn>, n: nat, p: string, which: Turn -> bool)
    requires n < |cs| && n < |turns|
    ensures Among(cs, turns, n + 1, p, which) <==> Among(cs, turns, n, p, which) || (cs[n].path == p && which(turns[n]))
  {
  }

  class Job {
    /** The files as they are, their fingerprints, and the sizes that WordPress has been told. */
    var files: map<string, Stat>
    var prints: map<string, Stat>
    var told: map<string, int>
    var manifest: map<string, int>
    var processed: nat
    var succeeded: nat
    var failed: nat
    /** Every file that this job has made smaller, those whose new size it has reported, and
        those whose fingerprint it has saved. */
    ghost var shrunk: set<string>
    ghost var reported: set<string>
    ghost var saved: set<string>

    /** Each file that shrank is on record: WordPress knows its size, or it waits in the manifest. */
    ghost predicate Consistent()
      reads this
    {
      && processed == succeeded + failed
      && shrunk <= files.Keys && shrunk == reported + manifest.Keys && reported !! manifest.Keys
      && (forall p :: p in reported ==> p in told && told[p] == files[p].size)
      && (forall p :: p in manifest ==> manifest[p] == files[p].size)
    }

    constructor (files: map<string, Stat>, prints: map<string, Stat>)
      ensures Consistent() && this.files == files && this.prints == prints && processed == 0 && shrunk == saved == {}
      ensures manifest == map[]
    {
      this.files, this.prints := files, prints;
      told, manifest, processed, succeeded, failed := map[], map[], 0, 0, 0;
      shrunk, reported, saved := {}, {}, {};
    }

    /** `filterAlreadyOptimizedImages`. */
    method Pending(candidates: seq<Candidate>) returns (pending: seq<Candidate>, skipped: nat)
      ensures skipped + |pending| == |candidates|
      ensures forall c :: c in pending <==> c in candidates && !(c.path in prints && prints[c.path] == c.stat)
      ensures Distinct(candidates) ==> Distinct(pending)
    {
      pending, skipped := [], 0;
      for i := 0 to |candidates|
        invariant skipped + |pending| == i
        invariant Distinct(candidates) ==> Distinct(pending)
        invariant forall c :: c in pending <==> c in candidates[..i] && !(c.path in prints && prints[c.path] == c.stat)
      {
        var c := candidates[i];
        assert candidates[..i + 1] == candidates[..i] + [c];
        if c.path in prints && prints[c.path] == c.stat {
          skipped := skipped + 1;
        } else {
          pending := pending + [c];
        }
      }
      assert candidates[..|candidates|] == candidates;
    }

    /** `flushImageFilesizeManifest`; the manifest is the caller's. */
    method Flush(ok: bool)
      modifies this`told
      ensures told == if ok then old(told) + manifest else old(told)
    {
      if ok { told := told + manifest; }
    }

    /** `forgetImageOptimizationFingerprints`; `kept`: the rows whose deletion fails. */
    method Forget(kept: set<string>)
      modifies this`prints
      ensures prints == old(prints) - (manifest.Keys - kept)
    {
      var todo := manifest.Keys;
      while todo != {}
        invariant todo <= manifest.Keys
        invariant prints == old(prints) - (manifest.Keys - todo - kept)
        decreases |todo|
      {
        var p :| p in todo;
        if p !in kept { prints := prints - {p}; }
        todo := todo - {p};
      }
    }

    /** A file that was rewritten: its fingerprint, and its new size if it is smaller. */
    method Keep(path: string, t: Turn)
      requires Consistent() && path !in shrunk && t.result.Rewritten?
      modifies this`files, this`prints, this`manifest, this`shrunk, this`saved
      ensures Consistent()
      ensures files == old(files)[path := Stat(t.result.after, t.result.mtime)]
      ensures prints == if t.saved then old(prints)[path := files[path]] else old(prints)
      ensures shrunk == if Shrinks(t) then old(shrunk) + {path} else old(shrunk)
      ensures saved == if t.saved then old(saved) + {path} else old(saved)
    {
      files := files[path := Stat(t.result.after, t.result.mtime)];
      if t.result.after < t.result.before {
        manifest := manifest[path := t.result.after];
        shrunk := shrunk + {path};
      }
      if t.saved {
        prints := prints[path := files[path]];
        saved := saved + {path};
      }
    }

    /** A full manifest is flushed, and kept if that fails. */
    method FlushWhenFull(ok: bool)
      requires Consistent()
      modifies this`told, this`manifest, this`reported
      ensures Consistent()
      ensures if |old(manifest)| >= FLUSH_SIZE && ok then manifest == map[] else manifest == old(manifest)
    {
      if |manifest| >= FLUSH_SIZE {
        Flush(ok);
        if ok {
          reported := reported + manifest.Keys;
          manifest := map[];
        }
      }
    }

    /** One file that was processed to the end. */
    method Handle(c: Candidate, t: Turn)
      requires Consistent() && c.path !in shrunk
      modifies this
      ensures Consistent() && processed == old(processed) + 1
      ensures shrunk == if Shrinks(t) then old(shrunk) + {c.path} else old(shrunk)
      ensures saved == if Saves(t) then old(saved) + {c.path} else old(saved)
      ensures t.result.Error? ==> failed == old(failed) + 1 && files == old(files) && prints == old(prints)
      ensures t.result.Rewritten? ==>
        && succeeded == old(succeeded) + 1
        && files == old(files)[c.path := Stat(t.result.after, t.result.mtime)]
        && prints == (if t.saved then old(prints)[c.path := files[c.path]] else old(prints))
    {
      processed := processed + 1;
      if t.result.Error? {
        failed := failed + 1;
      } else {
        succeeded := succeeded + 1;
        Keep(c.path, t);
      }
      FlushWhenFull(t.flushed);
    }

    /** The fingerprints are those from before and those saved since, which are of the files as they are. */
    ghost predicate PrintsSince(before: map<string, Stat>)
      reads this
    {
      && prints.Keys == before.Keys + saved && saved <= files.Keys
      && forall p :: p in prints ==> prints[p] == if p in saved then files[p] else before[p]
    }

    /** After the first n files: which of them shrank, and which have a new fingerprint. */
    ghost predicate Through(cs: seq<Candidate>, turns: seq<Turn>, n: nat)
      requires n <= |cs|
      reads this
    {
      && shrunk <= Paths(cs[..n]) && saved <= Paths(cs[..n])
      && (forall p :: p in shrunk <==> Among(cs, turns, n, p, Shrinks))
      && (forall p :: p in saved <==> Among(cs, turns, n, p, Saves))
    }

    /** Work on file n. */
    method Work(cs: seq<Candidate>, turns: seq<Turn>, n: nat, ghost before: map<string, Stat>)
      requires Distinct(cs) && n < |cs| <= |turns|
      requires Consistent() && PrintsSince(before) && Through(cs, turns, n)
      modifies this
      ensures Consistent() && PrintsSince(before) && Through(cs, turns, n + 1) && processed == old(processed) + 1
    {
      hide Job.Consistent, Among;
      NewPath(cs, n);
      forall p
        ensures Among(cs, turns, n + 1, p, Shrinks)
          <==> Among(cs, turns, n, p, Shrinks) || (cs[n].path == p && Shrinks(turns[n]))
        ensures
          Among(cs, turns, n + 1, p, Saves) <==> Among(cs, turns, n, p, Saves) || (cs[n].path == p && Saves(turns[n]))
      {
        AmongOne(cs, turns, n, p, Shrinks);
        AmongOne(cs, turns, n, p, Saves);
      }
      Handle(cs[n], turns[n]);
    }

    /** The last report. */
    method Finish(flushed: bool, kept: set<string>, ghost before: map<string, Stat>) returns (ok: bool)
      requires Consistent() && PrintsSince(before)
      modifies this`told, this`manifest, this`reported, this`prints
      ensures Consistent() && ok == (reported == shrunk)
      ensures prints.Keys == before.Keys + saved - (shrunk - reported - kept)
      ensures saved <= files.Keys && forall p :: p in prints ==> prints[p] == if p in saved then files[p] else before[p]
    {
      ok := true;
      if manifest != map[] {
        Flush(flushed);
        ok := flushed;
        if flushed {
          reported, manifest := reported + manifest.Keys, map[];
        } else {
          var p :| p in manifest;
          assert p in shrunk && p !in reported;
          Forget(kept);
        }
      }
    }

    /** `runImageOptimizationJob`, after the scan.  However the job ends, a file that it made
        smaller has its new size reported to WordPress, or the last report failed and the file
        has no fingerprint, so that the next scan does not skip it, unless forgetting the
        fingerprint failed as well.  Which files these are is exactly known. */
    method Run(candidates: seq<Candidate>, turns: seq<Turn>, lastFlushed: bool, kept: set<string>)
      returns (status: Status, skipped: nat, total: nat, ghost pending: seq<Candidate>)
      requires Consistent() && processed == 0 && shrunk == saved == {}
      requires Distinct(candidates) && |turns| >= |candidates|
      modifies this
      ensures Consistent() && skipped + total == |candidates| && total == |pending|
      ensures forall c :: c in pending <==> c in candidates && !(c.path in old(prints) && old(prints)[c.path] == c.stat)
      ensures processed <= total && (forall i :: 0 <= i < processed ==> !Stops(turns[i]))
      ensures (processed < total ==> Stops(turns[processed]))
      ensures status == if reported != shrunk then FlushFailed else if processed < total then Stopped else Succeeded
      ensures forall p :: p in shrunk <==> Among(pending, turns, processed, p, Shrinks)
      ensures forall p :: p in saved <==> Among(pending, turns, processed, p, Saves)
      ensures prints.Keys == old(prints).Keys + saved - (shrunk - reported - kept)
      ensures
        saved <= files.Keys && forall p :: p in prints ==> prints[p] == if p in saved then files[p] else old(prints)[p]
      ensures forall p ::
          p in shrunk && !(p in told && told[p] == files[p].size) ==>
            status == FlushFailed && (p !in prints || p in kept)
    {
      var todo;
      todo, skipped := Pending(candidates);
      pending, total := todo, |todo|;
      assert PrintsSince(old(prints)) && Through(todo, turns, 0);
      hide Job.Consistent, Job.PrintsSince, Job.Through, Among, Stops;
      var stopped := WorkAll(todo, turns, old(prints));
      AllAmong(todo, turns, processed);
      var ok := Finish(lastFlushed, kept, old(prints));
      Reported();
      status := if !ok then FlushFailed else if stopped then Stopped else Succeeded;
    }

    /** The loop over the files, until one of them stops it. */
    method WorkAll(cs: seq<Candidate>, turns: seq<Turn>, ghost before: map<string, Stat>) returns (stopped: bool)
      requires Distinct(cs) && |cs| <= |turns| && processed == 0
      requires Consistent() && PrintsSince(before) && Through(cs, turns, 0)
      modifies this
      ensures processed <= |cs| && Consistent() && PrintsSince(before) && Through(cs, turns, processed)
      ensures forall i :: 0 <= i < processed ==> !Stops(turns[i])
      ensures stopped == (processed < |cs|) && (processed < |cs| ==> Stops(turns[processed]))
    {
      hide Job.Consistent, Job.PrintsSince, Job.Through;
      stopped := false;
      var i := 0;
      while i < |cs| && !stopped
        invariant 0 <= i <= |cs| && Consistent() && processed == i && PrintsSince(before) && Through(cs, turns, i)
        invariant forall k :: 0 <= k < i ==> !Stops(turns[k])
        invariant stopped ==> i < |cs| && Stops(turns[i])
        decreases |cs| - i, !stopped
      {
        var t := turns[i];
        if t.stopBefore || (t.stopDuring && t.result.Error?) {
          stopped := true;
        } else {
          Work(cs, turns, i, before);
          i := i + 1;
        }
      }
    }

    lemma AllAmong(cs: seq<Candidate>, turns: seq<Turn>, n: nat)
      requires n <= |cs| && Through(cs, turns, n)
      ensures forall p :: p in shrunk <==> Among(cs, turns, n, p, Shrinks)
      ensures forall p :: p in saved <==> Among(cs, turns, n, p, Saves)
    {
    }

    lemma Reported()
      requires Consistent()
      ensures forall p :: p in shrunk && !(p in told && p in files && told[p] == files[p].size) ==> p !in reported
      ensures shrunk <= files.Keys && reported <= shrunk
    {
    }
  }

  function Paths(cs: seq<Candidate>): set<string> { set c | c in cs :: c.path }

  ghost predicate Distinct(cs: seq<Candidate>) { forall i, j :: 0 <= i < j < |cs| ==> cs[i].path != cs[j].path }

  lemma NewPath(cs: seq<Candidate>, i: nat)
    requires Distinct(cs) && i < |cs|
    ensures cs[i].path !in Paths(cs[..i]) && Paths(cs[..i + 1]) == Paths(cs[..i]) + {cs[i].path}
  {
    assert cs[..i + 1] == cs[..i] + [cs[i]];
  }
}
