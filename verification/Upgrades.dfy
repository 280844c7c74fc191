/**
 The upgrade chain of the database.  A step takes the schema and the files it touches
 from S to S and may be cut short; its version is recorded only when it is complete.
 */
module Upgrades {
  import opened Common

  /** `partial(s, k)`: what is there when the step is cut short after k of its effects. */
  datatype Step<!S> = Step(version: string, whole: S -> S, partial: (S, nat) -> S)

  const BASELINE := "1.0.0"

  datatype Db<S> = Db(rows: seq<string>, schema: S)

  /** Where a run ends early, if it does: in a step, or at the record of a finished one. */
  datatype Stop = Never | InStep(i: nat, k: nat) | AtRecord(i: nat, o: Write)

  datatype RunEnv = RunEnv(readOk: bool, deleted: Write, baseline: Write, installed: Write, stop: Stop, countOk: bool,
      last: Write)

  predicate BetaAt(v: string, i: nat) {
    && i + 4 <= |v| && v[i] in {'b', 'B'} && v[i + 1] in {'e', 'E'} && v[i + 2] in {'t', 'T'} && v[i + 3] in {'a', 'A'}
  }

  predicate IsBeta(v: string) { exists i: nat :: i < |v| && BetaAt(v, i) }

  function LowerChar(c: char): char { if 'A' <= c <= 'Z' then c + ('a' - 'A') else c }

  function Lower(s: string): string { seq(|s|, i requires 0 <= i < |s| => LowerChar(s[i])) }

  lemma BetaThere(v: string, i: nat)
    requires i + 4 <= |v|
    ensures BetaAt(v, i) <==> Lower(v)[i..i + 4] == "beta"
  {
    var w := Lower(v)[i..i + 4];
    assert w[0] == LowerChar(v[i]) && w[1] == LowerChar(v[i + 1]) && w[2] == LowerChar(v[i + 2]);
    assert w[3] == LowerChar(v[i + 3]);
  }

  /** The word beta, in any letter case and anywhere in it, makes a version a beta version. */
  lemma BetaIff(v: string)
    ensures IsBeta(v) <==> exists pre, post :: Lower(v) == pre + "beta" + post
  {
    hide LowerChar;
    var l := Lower(v);
    if i: nat :| i < |v| && BetaAt(v, i) {
      BetaThere(v, i);
      assert l == l[..i] + "beta" + l[i + 4..];
    }
    if pre, post :| l == pre + "beta" + post {
      assert l[|pre|..|pre| + 4] == "beta";
      BetaThere(v, |pre|);
    }
  }

  function Latest<S>(steps: seq<Step<S>>): string {
    if steps == [] then BASELINE else steps[|steps| - 1].version
  }

  function Current<S>(db: Db<S>): string {
    if db.rows == [] then "" else db.rows[|db.rows| - 1]
  }

  /** The step after the one that recorded version v; beyond the list if v is unknown. */
  function After<S>(steps: seq<Step<S>>, v: string, n: nat): (p: nat)
    requires n <= |steps|
    ensures p <= |steps| + 1
    ensures p <= |steps| <==> exists i :: 0 <= i < n && steps[i].version == v
    ensures p <= |steps| ==> 0 < p && steps[p - 1].version == v
  {
    if n == 0 then |steps| + 1
    else
      var p := After(steps, v, n - 1);
      if p <= |steps| then p else if steps[n - 1].version == v then n else |steps| + 1
  }

  /** The first step still to be run. */
  function StartAt<S>(steps: seq<Step<S>>, v: string): (p: nat)
    ensures p <= |steps| + 1
  {
    if v == "" || v == BASELINE then 0 else After(steps, v, |steps|)
  }

  /** Run the steps from i on. */
  function Execute<S>(steps: seq<Step<S>>, i: nat, db: Db<S>, stop: Stop): (Db<S>, bool)
    requires i <= |steps|
    decreases |steps| - i
  {
    if i == |steps| then (db, true)
    else if stop.InStep? && stop.i == i then (db.(schema := steps[i].partial(db.schema, stop.k)), false)
    else
      var done := db.(schema := steps[i].whole(db.schema));
      var recorded := done.(rows := done.rows + [steps[i].version]);
      if stop.AtRecord? && stop.i == i && stop.o != Acked then (if stop.o == Lost then done else recorded, false)
      else Execute(steps, i + 1, recorded, stop)
  }

  /** The end of a run: an empty version table gets the latest version.  A count that cannot
      be read counts as zero. */
  function Finish<S>(steps: seq<Step<S>>, db: Db<S>, e: RunEnv): (Db<S>, bool) {
    if db.rows != [] && e.countOk then (db, true)
    else (if e.last == Lost then db else db.(rows := db.rows + [Latest(steps)]), e.last == Acked)
  }

  /** From a version that is neither beta nor a new installation. */
  function RunFrom<S>(steps: seq<Step<S>>, db: Db<S>, current: string, e: RunEnv): (Db<S>, bool) {
    var p := StartAt(steps, current);
    if p > |steps| then (db, false)
    else
      var (after, ok) := Execute(steps, p, db, e.stop);
      if ok then Finish(steps, after, e) else (after, false)
  }

  /** `RunUpgrades`; `canary`: the column that only the latest schema has is there. */
  function Run<S>(steps: seq<Step<S>>, canary: S -> bool, db: Db<S>, e: RunEnv): (Db<S>, bool) {
    var current := Current(db);
    if !e.readOk then (db, false)
    else if current == "" && canary(db.schema) then
      (if e.installed == Lost then db else db.(rows := db.rows + [Latest(steps)]), e.installed == Acked)
    else if IsBeta(current) then
      var cleared := if e.deleted == Lost then db else db.(rows := []);
      if e.deleted != Acked then RunFrom(steps, cleared, current, e)
      else
        var normal := if e.baseline == Lost then cleared else cleared.(rows := [BASELINE]);
        RunFrom(steps, normal, if e.baseline == Acked then BASELINE else current, e)
    else RunFrom(steps, db, current, e)
  }

  // ----- what the chain leads to -----

  /** The schema after the steps from p on. */
  function Final<S>(steps: seq<Step<S>>, p: nat, s: S): S
    decreases |steps| - p
  {
    if p >= |steps| then s else Final(steps, p + 1, steps[p].whole(s))
  }

  function Versions<S>(steps: seq<Step<S>>, i: nat, j: nat): seq<string>
    requires i <= j <= |steps|
    decreases j - i
  {
    if i == j then [] else [steps[i].version] + Versions(steps, i + 1, j)
  }

  /** The first step a run would execute. */
  function Position<S>(steps: seq<Step<S>>, canary: S -> bool, db: Db<S>): nat {
    var current := Current(db);
    if current == "" && canary(db.schema) then |steps| else if IsBeta(current) then 0 else StartAt(steps, current)
  }

  /** Where the database is heading. */
  function Destination<S>(steps: seq<Step<S>>, canary: S -> bool, db: Db<S>): S {
    Final(steps, Position(steps, canary, db), db.schema)
  }

  ghost predicate ProperVersions<S>(steps: seq<Step<S>>) {
    && (forall i :: 0 <= i < |steps| ==>
          steps[i].version != "" && steps[i].version != BASELINE && !IsBeta(steps[i].version))
    && (forall i, j :: 0 <= i < j < |steps| ==> steps[i].version != steps[j].version)
  }

  /** Repeating a step, also after it was cut short, has the effect of doing it once. */
  ghost predicate Repeatable<S(!new)>(steps: seq<Step<S>>) {
    && (forall i, s, k :: 0 <= i < |steps| ==> steps[i].whole(steps[i].partial(s, k)) == steps[i].whole(s))
    && (forall i, s :: 0 <= i < |steps| ==> steps[i].whole(steps[i].whole(s)) == steps[i].whole(s))
  }

  /** The interruption that an execution from i on s meets, if any, does no harm: the step it
      hits has the same effect when it is done after that as when it is done at once. */
  ghost predicate Harmless<S>(steps: seq<Step<S>>, i: nat, s: S, stop: Stop)
    requires i <= |steps|
    decreases |steps| - i
  {
    if i == |steps| || stop.Never? then true
    else if stop.InStep? && stop.i == i then steps[i].whole(steps[i].partial(s, stop.k)) == steps[i].whole(s)
    else if stop.AtRecord? && stop.i == i && stop.o != Acked then
      stop.o == Lost ==> steps[i].whole(steps[i].whole(s)) == steps[i].whole(s)
    else Harmless(steps, i + 1, steps[i].whole(s), stop)
  }

  lemma {:induction false} RepeatableIsHarmless<S(!new)>(steps: seq<Step<S>>, i: nat, s: S, stop: Stop)
    requires Repeatable(steps) && i <= |steps|
    ensures Harmless(steps, i, s, stop)
    decreases |steps| - i
  {
    if i < |steps| { RepeatableIsHarmless(steps, i + 1, steps[i].whole(s), stop); }
  }

  /** The run gets as far as executing steps. */
  predicate Executes<S>(canary: S -> bool, db: Db<S>, e: RunEnv) {
    && e.readOk && !(Current(db) == "" && canary(db.schema))
    && (IsBeta(Current(db)) ==> e.deleted == Acked && e.baseline == Acked)
  }

  ghost predicate HarmlessRun<S>(steps: seq<Step<S>>, canary: S -> bool, db: Db<S>, e: RunEnv) {
    var p := Position(steps, canary, db);
    Executes(canary, db, e) && p <= |steps| ==> Harmless(steps, p, db.schema, e.stop)
  }

  ghost predicate HarmlessAll<S>(steps: seq<Step<S>>, canary: S -> bool, db: Db<S>, es: seq<RunEnv>)
    decreases |es|
  {
    es != [] ==>
      HarmlessRun(steps, canary, db, es[0]) && HarmlessAll(steps, canary, Run(steps, canary, db, es[0]).0, es[1..])
  }

  /** A chain of repeatable steps can be interrupted at any point without harm. */
  lemma {:induction false} RepeatableNeverHarmed<S(!new)>(steps: seq<Step<S>>, canary: S -> bool, db: Db<S>,
      es: seq<RunEnv>)
    requires Repeatable(steps)
    ensures HarmlessAll(steps, canary, db, es)
    decreases |es|
  {
    hide Run, Repeatable, Position;
    if es != [] {
      var p := Position(steps, canary, db);
      if p <= |steps| { RepeatableIsHarmless(steps, p, db.schema, es[0].stop); }
      RepeatableNeverHarmed(steps, canary, Run(steps, canary, db, es[0]).0, es[1..]);
    }
  }

  /** The first step does not create the column that marks a new installation. */
  ghost predicate CanaryLate<S(!new)>(steps: seq<Step<S>>, canary: S -> bool) {
    |steps| > 0 ==>
      && (forall s, k :: !canary(s) ==> !canary(steps[0].partial(s, k)))
      && (forall s :: !canary(s) ==> !canary(steps[0].whole(s)))
  }

  ghost predicate Recognised<S>(steps: seq<Step<S>>, canary: S -> bool,
      db: Db<S>) { Position(steps, canary, db) <= |steps| }

  lemma {:induction false} AfterIndex<S>(steps: seq<Step<S>>, i: nat, n: nat)
    requires ProperVersions(steps) && i < n <= |steps|
    ensures After(steps, steps[i].version, n) == i + 1
  {
    if i < n - 1 { AfterIndex(steps, i, n - 1); }
  }

  /** How far an execution from i gets. */
  function Reached<S>(steps: seq<Step<S>>, i: nat, stop: Stop): (j: nat)
    requires i <= |steps|
    ensures i <= j <= |steps|
  {
    match stop
    case Never => |steps|
    case InStep(a, _) => if i <= a < |steps| then a else |steps|
    case AtRecord(a, o) =>
      if i <= a < |steps| && o == Lost then a else if i <= a < |steps| && o == Unacked then a + 1 else |steps|
  }

  lemma VersionsStep<S>(steps: seq<Step<S>>, rows: seq<string>, i: nat, j: nat)
    requires i < j <= |steps|
    ensures rows + [steps[i].version] + Versions(steps, i + 1, j) == rows + Versions(steps, i, j)
  {
    var v, rest := [steps[i].version], Versions(steps, i + 1, j);
    assert Versions(steps, i, j) == v + rest;
    hide Versions;
    assert rows + v + rest == rows + (v + rest);
  }

  lemma FinalStep<S(!new)>(steps: seq<Step<S>>, i: nat, s: S)
    requires i < |steps|
    ensures Final(steps, i, s) == Final(steps, i + 1, steps[i].whole(s))
  {
  }

  /** An execution records the versions of exactly the steps it completes, in order. */
  lemma {:induction false} ExecuteRecords<S>(steps: seq<Step<S>>, i: nat, db: Db<S>, stop: Stop)
    requires i <= |steps|
    ensures var (after, ok), j := Execute(steps, i, db, stop), Reached(steps, i, stop);
      && after.rows == db.rows + Versions(steps, i, j)
      && (ok ==> j == |steps|) && (stop == Never ==> ok)
      && (i < j ==> |after.rows| > 0 && Current(after) == steps[j - 1].version)
    decreases |steps| - i
  {
    var j := Reached(steps, i, stop);
    if i == |steps| || (!stop.Never? && stop.i == i && (stop.AtRecord? ==> stop.o != Acked)) {
      if i < j {
        VersionsStep(steps, db.rows, i, j);
        NothingRecorded(steps, j, db.rows + [steps[i].version]);
      } else {
        NothingRecorded(steps, i, db.rows);
      }
    } else {
      var recorded := Db(db.rows + [steps[i].version], steps[i].whole(db.schema));
      ExecuteRecords(steps, i + 1, recorded, stop);
      hide Versions;
      VersionsStep(steps, db.rows, i, j);
      if i + 1 == j { NothingRecorded(steps, j, recorded.rows); }
    }
  }

  /** An execution that is not harmed leaves the same destination ahead. */
  lemma {:induction false} ExecuteKeeps<S(!new)>(steps: seq<Step<S>>, i: nat, db: Db<S>, stop: Stop)
    requires i <= |steps| && Harmless(steps, i, db.schema, stop)
    ensures Final(steps, Reached(steps, i, stop), Execute(steps, i, db, stop).0.schema) == Final(steps, i, db.schema)
    decreases |steps| - i
  {
    if i < |steps| {
      FinalStep(steps, i, db.schema);
      if stop.InStep? && stop.i == i {
        FinalStep(steps, i, steps[i].partial(db.schema, stop.k));
      } else if stop.AtRecord? && stop.i == i && stop.o != Acked {
        FinalStep(steps, i, steps[i].whole(db.schema));
      } else {
        hide Final;
        ExecuteKeeps(steps, i + 1, Db(db.rows + [steps[i].version], steps[i].whole(db.schema)), stop);
      }
    }
  }

  /** A database whose chain may be run at any time: its version is known and not blank,
      and if it is a beta, the schema does not look like a new installation. */
  ghost predicate Steady<S>(steps: seq<Step<S>>, canary: S -> bool, db: Db<S>) {
    && Recognised(steps, canary, db) && (Current(db) == "" ==> db.rows == [])
    && (IsBeta(Current(db)) ==> !canary(db.schema))
  }

  /** Where a database stands that has just recorded step j - 1, or started at j. */
  lemma StandsAt<S>(steps: seq<Step<S>>, canary: S -> bool, db: Db<S>, j: nat)
    requires ProperVersions(steps) && 0 < j <= |steps| && Current(db) == steps[j - 1].version
    ensures Position(steps, canary, db) == j && !IsBeta(Current(db)) && Current(db) != ""
  {
    AfterIndex(steps, j - 1, |steps|);
  }

  lemma LatestStands<S>(steps: seq<Step<S>>, canary: S -> bool, db: Db<S>)
    requires ProperVersions(steps) && Current(db) == Latest(steps)
    ensures Position(steps, canary, db) == |steps| && !IsBeta(Current(db)) && Current(db) != ""
  {
    if steps == [] {
      PlainWords();
    } else {
      StandsAt(steps, canary, db, |steps|);
    }
  }

  lemma PlainWords()
    ensures !IsBeta("") && !IsBeta(BASELINE)
  {
  }

  lemma AtEnd<S(!new)>(steps: seq<Step<S>>)
    ensures forall s :: Final(steps, |steps|, s) == s
  {
  }

  lemma NothingRecorded<S>(steps: seq<Step<S>>, p: nat, rows: seq<string>)
    requires p <= |steps|
    ensures rows + Versions(steps, p, p) == rows
  {
  }

  /** An interruption before the first record does not make the schema look new. */
  lemma StaysPut<S(!new)>(steps: seq<Step<S>>, canary: S -> bool, db: Db<S>, stop: Stop)
    requires CanaryLate(steps, canary) && !canary(db.schema) && Reached(steps, 0, stop) == 0
    ensures !canary(Execute(steps, 0, db, stop).0.schema)
  {
  }

  lemma AtEndIsLatest<S>(steps: seq<Step<S>>, canary: S -> bool, db: Db<S>)
    requires Position(steps, canary, db) == |steps| && Current(db) != "" && !IsBeta(Current(db))
    ensures Current(db) == Latest(steps)
  {
  }

  lemma FinishKeeps<S(!new)>(steps: seq<Step<S>>, canary: S -> bool, db: Db<S>, e: RunEnv)
    requires ProperVersions(steps) && Position(steps, canary, db) == |steps| && (db.rows == [] ==> !canary(db.schema))
    requires !IsBeta(Current(db))
    requires db.rows == [] ==> steps == []
    requires db.rows != [] ==> Current(db) == Latest(steps)
    ensures var (after, ok) := Finish(steps, db, e);
      && after.schema == db.schema && Position(steps, canary, after) == |steps| && !IsBeta(Current(after))
      && (Current(after) == "" ==> after.rows == [])
      && (ok ==> Current(after) == Latest(steps))
  {
    hide IsBeta, After;
    LatestStands(steps, canary, db.(rows := db.rows + [Latest(steps)]));
  }

  /** Where the steps leave a database with a plain version, harmed or not. */
  lemma ExecutedStands<S(!new)>(steps: seq<Step<S>>, canary: S -> bool, db: Db<S>, stop: Stop)
    requires ProperVersions(steps) && CanaryLate(steps, canary)
    requires !IsBeta(Current(db)) && Steady(steps, canary, db) && (Current(db) == "" ==> !canary(db.schema))
    ensures Position(steps, canary, db) == StartAt(steps, Current(db)) <= |steps|
    ensures var p := Position(steps, canary, db); var (mid, ok) := Execute(steps, p, db, stop);
      && Steady(steps, canary, mid) && !IsBeta(Current(mid)) && Position(steps, canary, mid) == Reached(steps, p, stop)
      && (Current(mid) == "" ==> !canary(mid.schema))
      && (ok ==>
            && Position(steps, canary, mid) == |steps| && (mid.rows == [] ==> !canary(mid.schema) && steps == [])
            && (mid.rows != [] ==> Current(mid) == Latest(steps)))
  {
    hide IsBeta, Final, Execute, Versions, ProperVersions, After, CanaryLate, Reached;
    PlainWords();
    var p := Position(steps, canary, db);
    ExecuteRecords(steps, p, db, stop);
    if Current(db) == "" && Reached(steps, 0, stop) == 0 { StaysPut(steps, canary, db, stop); }
    var (mid, ok) := Execute(steps, p, db, stop);
    var j := Reached(steps, p, stop);
    if p < j {
      StandsAt(steps, canary, mid, j);
    } else {
      NothingRecorded(steps, p, db.rows);
      if ok && mid.rows != [] { AtEndIsLatest(steps, canary, mid); }
    }
  }

  /** A run from a plain version. */
  lemma RunFromKeeps<S(!new)>(steps: seq<Step<S>>, canary: S -> bool, db: Db<S>, e: RunEnv)
    requires ProperVersions(steps) && CanaryLate(steps, canary)
    requires !IsBeta(Current(db)) && Steady(steps, canary, db) && (Current(db) == "" ==> !canary(db.schema))
    requires Harmless(steps, Position(steps, canary, db), db.schema, e.stop)
    ensures var (after, ok) := RunFrom(steps, db, Current(db), e);
      Steady(steps, canary, after) && Destination(steps, canary, after) == Destination(steps, canary, db)
    ensures var (after, ok) := RunFrom(steps, db, Current(db), e);
      ok ==>
        && after.schema == Destination(steps, canary, db) && Position(steps, canary, after) == |steps|
        && Current(after) == Latest(steps)
  {
    hide IsBeta, Final, Execute, Harmless, ProperVersions, CanaryLate, Finish, Position, StartAt, Latest, Reached;
    AtEnd(steps);
    ExecutedStands(steps, canary, db, e.stop);
    ExecuteKeeps(steps, Position(steps, canary, db), db, e.stop);
    var (mid, ok) := Execute(steps, Position(steps, canary, db), db, e.stop);
    if ok { FinishKeeps(steps, canary, mid, e); }
  }

  function Smooth(): RunEnv { RunEnv(true, Acked, Acked, Acked, Never, true, Acked) }

  /** Any run, however it ends, leaves the same destination ahead; and a run that succeeds is there. */
  lemma RunKeeps<S(!new)>(steps: seq<Step<S>>, canary: S -> bool, db: Db<S>, e: RunEnv)
    requires ProperVersions(steps) && CanaryLate(steps, canary) && Steady(steps, canary, db)
    requires HarmlessRun(steps, canary, db, e)
    ensures var (after, ok) := Run(steps, canary, db, e);
      Steady(steps, canary, after) && Destination(steps, canary, after) == Destination(steps, canary, db)
    ensures var (after, ok) := Run(steps, canary, db, e);
      ok && e.readOk ==>
        && after.schema == Destination(steps, canary, db) && Position(steps, canary, after) == |steps|
        && Current(after) == Latest(steps)
  {
    hide RunFrom, IsBeta, Final, Harmless;
    PlainWords();
    AtEnd(steps);
    var current := Current(db);
    if current == "" && canary(db.schema) {
      var after := db.(rows := db.rows + [Latest(steps)]);
      LatestStands(steps, canary, after);
    } else if IsBeta(current) {
      var cleared := db.(rows := []);
      var normal := db.(rows := [BASELINE]);
      if Executes(canary, db, e) { RunFromKeeps(steps, canary, normal, e); }
      UnknownBeta(steps, db, current, e);
      UnknownBeta(steps, cleared, current, e);
      UnknownBeta(steps, normal, current, e);
    } else if e.readOk {
      RunFromKeeps(steps, canary, db, e);
    }
  }

  lemma UnknownBeta<S>(steps: seq<Step<S>>, db: Db<S>, v: string, e: RunEnv)
    requires ProperVersions(steps) && IsBeta(v)
    ensures RunFrom(steps, db, v, e) == (db, false)
  {
    PlainWords();
  }

  function RunAll<S>(steps: seq<Step<S>>, canary: S -> bool, db: Db<S>, es: seq<RunEnv>): Db<S>
    decreases |es|
  {
    if es == [] then db else RunAll(steps, canary, Run(steps, canary, db, es[0]).0, es[1..])
  }

  lemma {:induction false} RunAllKeeps<S(!new)>(steps: seq<Step<S>>, canary: S -> bool, db: Db<S>, es: seq<RunEnv>)
    requires ProperVersions(steps) && CanaryLate(steps, canary) && Steady(steps, canary, db)
    requires HarmlessAll(steps, canary, db, es)
    ensures var after := RunAll(steps, canary, db, es);
      Steady(steps, canary, after) && Destination(steps, canary, after) == Destination(steps, canary, db)
    decreases |es|
  {
    hide Run, Steady, Destination, HarmlessRun;
    if es != [] {
      RunKeeps(steps, canary, db, es[0]);
      RunAllKeeps(steps, canary, Run(steps, canary, db, es[0]).0, es[1..]);
    }
  }

  lemma SmoothIsHarmless<S>(steps: seq<Step<S>>, canary: S -> bool, db: Db<S>)
    ensures HarmlessRun(steps, canary, db, Smooth())
  {
  }

  /** A run in which nothing fails succeeds. */
  lemma SmoothSucceeds<S(!new)>(steps: seq<Step<S>>, canary: S -> bool, db: Db<S>)
    requires ProperVersions(steps) && Steady(steps, canary, db)
    ensures Run(steps, canary, db, Smooth()).1
  {
    var current := Current(db);
    var normal := db.(rows := [BASELINE]);
    var start := if IsBeta(current) then normal else db;
    var p := StartAt(steps, Current(start));
    if p <= |steps| { ExecuteRecords(steps, p, start, Never); }
  }

  /** However often the chain is interrupted, without harm, and rerun, a run that then goes through ends
      at the latest version with the schema that one uninterrupted run would have given. */
  lemma Resumable<S(!new)>(steps: seq<Step<S>>, canary: S -> bool, db: Db<S>, es: seq<RunEnv>)
    requires ProperVersions(steps) && CanaryLate(steps, canary) && Steady(steps, canary, db)
    requires HarmlessAll(steps, canary, db, es)
    ensures var broken := RunAll(steps, canary, db, es);
      var (after, ok), (direct, _) := Run(steps, canary, broken, Smooth()), Run(steps, canary, db, Smooth());
      ok && Current(after) == Latest(steps) && after.schema == direct.schema
  {
    hide Run, Steady, Destination, HarmlessRun, HarmlessAll;
    SmoothIsHarmless(steps, canary, db);
    SmoothIsHarmless(steps, canary, RunAll(steps, canary, db, es));
    var broken := RunAll(steps, canary, db, es);
    RunAllKeeps(steps, canary, db, es);
    SmoothSucceeds(steps, canary, broken);
    SmoothSucceeds(steps, canary, db);
    RunKeeps(steps, canary, broken, Smooth());
    RunKeeps(steps, canary, db, Smooth());
  }

  // ----- what runs record -----

  /** n records of version v. */
  function Copies(v: string, n: nat): seq<string> { seq(n, _ => v) }

  /** How many of the runs cannot count the records. */
  function Uncounted(es: seq<RunEnv>): nat {
    if es == [] then 0 else (if es[0].countOk then 0 else 1) + Uncounted(es[1..])
  }

  /** A recorded version that is no beta or, if none is recorded, a schema that does not look new. */
  ghost predicate PlainStart<S>(steps: seq<Step<S>>, canary: S -> bool, db: Db<S>) {
    && Steady(steps, canary, db) && !IsBeta(Current(db))
    && (Current(db) == "" ==> !canary(db.schema) && steps != [])
  }

  /** From `before` to `after` the versions of steps p to q have been recorded, and then k times the latest. */
  ghost predicate Recorded<S>(steps: seq<Step<S>>, before: seq<string>, after: seq<string>, p: nat, q: nat, k: nat) {
    && p <= q <= |steps| && (k > 0 ==> q == |steps|)
    && after == before + Versions(steps, p, q) + Copies(Latest(steps), k)
  }

  lemma {:induction false} VersionsJoin<S>(steps: seq<Step<S>>, p: nat, q: nat, r: nat)
    requires p <= q <= r <= |steps|
    ensures Versions(steps, p, q) + Versions(steps, q, r) == Versions(steps, p, r)
    decreases q - p
  {
    if p < q {
      VersionsJoin(steps, p + 1, q, r);
      Reassociate([steps[p].version], Versions(steps, p + 1, q), Versions(steps, q, r));
    }
  }

  lemma Regroup<T>(a: seq<T>, v: seq<T>, x: seq<T>, w: seq<T>, y: seq<T>)
    requires x == [] || w == []
    ensures a + v + x + w + y == a + (v + w) + (x + y)
  {
    if x == [] {
      assert a + v + x == a + v && x + y == y;
      Reassociate(a, v, w);
    } else {
      assert a + v + x + w == a + v + x && v + w == v;
      Reassociate(a + v, x, y);
    }
  }

  lemma CopiesJoin(v: string, k: nat, l: nat)
    ensures Copies(v, k) + Copies(v, l) == Copies(v, k + l) && Copies(v, 0) == []
  {
  }

  lemma RecordedJoin<S>(steps: seq<Step<S>>, a: seq<string>, b: seq<string>, c: seq<string>, p: nat, q: nat, r: nat,
      k: nat, l: nat)
    requires Recorded(steps, a, b, p, q, k) && Recorded(steps, b, c, q, r, l)
    ensures Recorded(steps, a, c, p, r, k + l)
  {
    VersionsJoin(steps, p, q, r);
    assert k > 0 ==> Versions(steps, q, r) == [];
    CopiesJoin(Latest(steps), k, l);
    CopiesJoin(Latest(steps), 0, k);
    hide Versions, Copies, Latest;
    Regroup(a, Versions(steps, p, q), Copies(Latest(steps), k), Versions(steps, q, r), Copies(Latest(steps), l));
  }

  /** One run, however it ends: it moves on by the steps it records, in order, and a run that
      gets to the end and cannot count the records adds the latest version once more. */
  lemma RunRecords<S(!new)>(steps: seq<Step<S>>, canary: S -> bool, db: Db<S>, e: RunEnv) returns (k: nat)
    requires ProperVersions(steps) && CanaryLate(steps, canary) && PlainStart(steps, canary, db)
    ensures var after := Run(steps, canary, db, e).0;
      && PlainStart(steps, canary, after) && k <= (if e.countOk then 0 else 1)
      && Recorded(steps, db.rows, after.rows, Position(steps, canary, db), Position(steps, canary, after), k)
  {
    hide IsBeta, Execute, Versions, ProperVersions, CanaryLate, After, Reached;
    PlainWords();
    var p := Position(steps, canary, db);
    ExecutedStands(steps, canary, db, e.stop);
    ExecuteRecords(steps, p, db, e.stop);
    var (mid, ok) := Execute(steps, p, db, e.stop);
    var after := Run(steps, canary, db, e).0;
    NothingRecorded(steps, p, db.rows);
    k := 0;
    if e.readOk && ok && (mid.rows == [] || !e.countOk) && e.last != Lost {
      LatestStands(steps, canary, after);
      k := 1;
    }
  }

  /** Over any runs, interrupted anywhere: what has been recorded are exactly the versions of
      the steps passed, in order, and after the last of them the latest version again, at most
      once for every run that could not count the records. */
  lemma {:induction false} RunAllRecords<S(!new)>(steps: seq<Step<S>>, canary: S -> bool, db: Db<S>, es: seq<RunEnv>)
    returns (k: nat)
    requires ProperVersions(steps) && CanaryLate(steps, canary) && PlainStart(steps, canary, db)
    ensures var after := RunAll(steps, canary, db, es);
      && PlainStart(steps, canary, after) && k <= Uncounted(es)
      && Recorded(steps, db.rows, after.rows, Position(steps, canary, db), Position(steps, canary, after), k)
    decreases |es|
  {
    hide Run, PlainStart, Position, Recorded;
    if es == [] {
      k := 0;
      RecordedNothing(steps, canary, db);
    } else {
      var next := Run(steps, canary, db, es[0]).0;
      var first := RunRecords(steps, canary, db, es[0]);
      var rest := RunAllRecords(steps, canary, next, es[1..]);
      var after := RunAll(steps, canary, db, es);
      RecordedJoin(steps, db.rows, next.rows, after.rows, Position(steps, canary, db), Position(steps, canary, next),
          Position(steps, canary, after), first, rest);
      k := first + rest;
    }
  }

  lemma RecordedNothing<S>(steps: seq<Step<S>>, canary: S -> bool, db: Db<S>)
    requires PlainStart(steps, canary, db)
    ensures Recorded(steps, db.rows, db.rows, Position(steps, canary, db), Position(steps, canary, db), 0)
  {
    NothingRecorded(steps, Position(steps, canary, db), db.rows);
  }

  /** What an uninterrupted run from a plain version records: the versions after its own, in order. */
  lemma RecordsSuffix<S(!new)>(steps: seq<Step<S>>, canary: S -> bool, db: Db<S>)
    requires ProperVersions(steps) && Steady(steps, canary, db) && db.rows != [] && !IsBeta(Current(db))
    requires Current(db) != ""
    ensures Run(steps, canary, db, Smooth()).0.rows == db.rows + Versions(steps, StartAt(steps, Current(db)), |steps|)
  {
    ExecuteRecords(steps, StartAt(steps, Current(db)), db, Never);
  }

  /** Once at the latest version, a further run executes no step; it records nothing, unless it
      cannot count the records: then it records the latest version once more. */
  lemma FurtherRunExecutesNothing<S(!new)>(steps: seq<Step<S>>, canary: S -> bool, db: Db<S>, e: RunEnv)
    requires ProperVersions(steps) && db.rows != [] && Current(db) == Latest(steps)
    ensures var (after, ok) := Run(steps, canary, db, e);
      && after.schema == db.schema
      && after.rows == (if e.readOk && !e.countOk && e.last != Lost then db.rows + [Latest(steps)] else db.rows)
      && ok == (e.readOk && (e.countOk || e.last == Acked))
  {
    LatestStands(steps, canary, db);
    assert Current(db) != "" by { if steps != [] { assert steps[|steps| - 1].version != ""; } }
  }

  /** The run deletes a beta version and does not write the baseline. */
  predicate Emptied(e: RunEnv) {
    e.readOk && (e.deleted == Unacked || (e.deleted == Acked && e.baseline == Lost))
  }

  /** A beta version is replaced by the baseline in two writes.  Any run keeps the destination,
      unless it leaves the version table empty and the schema looks like a new installation
      that still needs a step. */
  lemma BetaInterrupted<S(!new)>(steps: seq<Step<S>>, canary: S -> bool, db: Db<S>, e: RunEnv)
    requires ProperVersions(steps) && CanaryLate(steps, canary) && IsBeta(Current(db))
    requires HarmlessRun(steps, canary, db, e)
    ensures var after := Run(steps, canary, db, e).0;
      Destination(steps, canary, after) == Destination(steps, canary, db)
      <==> !Emptied(e) || !canary(db.schema) || Final(steps, 0, db.schema) == db.schema
  {
    hide IsBeta, RunFrom, Final, Harmless, CanaryLate;
    PlainWords();
    AtEnd(steps);
    var normal := db.(rows := [BASELINE]);
    if Executes(canary, db, e) { RunFromKeeps(steps, canary, normal, e); }
    UnknownBeta(steps, db, Current(db), e);
    UnknownBeta(steps, db.(rows := []), Current(db), e);
    UnknownBeta(steps, normal, Current(db), e);
  }

  // ----- a step cut short, harmlessly or not -----

  /** The schema after the steps from i to j. */
  function Upto<S>(steps: seq<Step<S>>, i: nat, j: nat, s: S): S
    requires i <= j <= |steps|
    decreases j - i
  {
    if i == j then s else Upto(steps, i + 1, j, steps[i].whole(s))
  }

  lemma {:induction false} FinalUpto<S>(steps: seq<Step<S>>, i: nat, j: nat, s: S)
    requires i <= j <= |steps|
    ensures Final(steps, i, s) == Final(steps, j, Upto(steps, i, j, s))
    decreases j - i
  {
    if i < j { FinalUpto(steps, i + 1, j, steps[i].whole(s)); }
  }

  /** A run that ends at `stop`, and that would have gone through. */
  function CutShort(stop: Stop): RunEnv { Smooth().(stop := stop) }

  /** The run ends in step a, or right after it without a record. */
  predicate CutsAt(stop: Stop, a: nat) {
    !stop.Never? && stop.i == a && (stop.AtRecord? ==> stop.o == Lost)
  }

  /** What step a leaves of the schema it found. */
  function LeftOf<S>(step: Step<S>, found: S, stop: Stop): S {
    if stop.InStep? then step.partial(found, stop.k) else step.whole(found)
  }

  lemma {:induction false} ExecuteCut<S>(steps: seq<Step<S>>, i: nat, db: Db<S>, a: nat, stop: Stop)
    requires i <= a < |steps| && CutsAt(stop, a)
    ensures var (mid, ok) := Execute(steps, i, db, stop);
      !ok && mid.schema == LeftOf(steps[a], Upto(steps, i, a, db.schema), stop)
    decreases a - i
  {
    if i < a { ExecuteCut(steps, i + 1, Db(db.rows + [steps[i].version], steps[i].whole(db.schema)), a, stop); }
  }

  lemma CutRun<S(!new)>(steps: seq<Step<S>>, canary: S -> bool, db: Db<S>, a: nat, stop: Stop)
    requires ProperVersions(steps) && CanaryLate(steps, canary) && Steady(steps, canary, db)
    requires !(Current(db) == "" && canary(db.schema))
    requires Position(steps, canary, db) <= a < |steps| && CutsAt(stop, a)
    ensures var broken, p := Run(steps, canary, db, CutShort(stop)).0, Position(steps, canary, db);
      && Steady(steps, canary, broken) && Position(steps, canary, broken) == a
      && broken.schema == LeftOf(steps[a], Upto(steps, p, a, db.schema), stop)
  {
    hide IsBeta, Execute, CanaryLate, ProperVersions, After, Finish, Upto, LeftOf;
    PlainWords();
    var start := if IsBeta(Current(db)) then db.(rows := [BASELINE]) else db;
    ExecutedStands(steps, canary, start, stop);
    ExecuteCut(steps, Position(steps, canary, db), start, a, stop);
  }

  /** Exactly when an interruption in step a, or between the step and its record, does no harm:
      rerunning the chain gives the schema of an uninterrupted run if and only if the rest of
      the chain cannot tell the schema that step a left from the one it found. */
  lemma ResumesIff<S(!new)>(steps: seq<Step<S>>, canary: S -> bool, db: Db<S>, a: nat, stop: Stop)
    requires ProperVersions(steps) && CanaryLate(steps, canary) && Steady(steps, canary, db)
    requires !(Current(db) == "" && canary(db.schema))
    requires Position(steps, canary, db) <= a < |steps| && CutsAt(stop, a)
    ensures var broken := Run(steps, canary, db, CutShort(stop)).0;
      var found := Upto(steps, Position(steps, canary, db), a, db.schema);
      Run(steps, canary, broken, Smooth()).0.schema == Run(steps, canary, db, Smooth()).0.schema
      <==> Final(steps, a, LeftOf(steps[a], found, stop)) == Final(steps, a, found)
  {
    hide Run, Steady, HarmlessRun, Position, Final, Upto, LeftOf;
    var broken := Run(steps, canary, db, CutShort(stop)).0;
    CutRun(steps, canary, db, a, stop);
    FinalUpto(steps, Position(steps, canary, db), a, db.schema);
    RanSmoothly(steps, canary, broken);
    RanSmoothly(steps, canary, db);
  }

  lemma RanSmoothly<S(!new)>(steps: seq<Step<S>>, canary: S -> bool, db: Db<S>)
    requires ProperVersions(steps) && CanaryLate(steps, canary) && Steady(steps, canary, db)
    ensures Run(steps, canary, db, Smooth()).0.schema == Destination(steps, canary, db)
  {
    hide Run, Steady, HarmlessRun, Destination;
    SmoothIsHarmless(steps, canary, db);
    SmoothSucceeds(steps, canary, db);
    RunKeeps(steps, canary, db, Smooth());
  }

  /** The column of locking times, and whether the times of locked sites are in it. */
  datatype LockTimes = LockTimes(column: bool, filled: bool)

  datatype Panel<R> = Panel(times: LockTimes, rest: R)

  /** `ensureFileLockEnabledAtColumn`: add the column and fill it, unless the column is there. */
  function FillLockTimes(s: LockTimes): LockTimes {
    if s.column then s else LockTimes(true, true)
  }

  function FillLockTimesCutShort(s: LockTimes, k: nat): LockTimes {
    if s.column || k == 0 then s else if k == 1 then LockTimes(true, s.filled) else LockTimes(true, true)
  }

  ghost predicate LeavesLockTimes<R(!new)>(step: Step<Panel<R>>) {
    && (forall s: Panel<R> :: step.whole(s).times == s.times)
    && (forall s: Panel<R>, t: Panel<R> :: s.rest == t.rest ==> step.whole(s).rest == step.whole(t).rest)
  }

  /** Step a fills the locking times; the others neither change nor read them. */
  ghost predicate FillsLockTimes<R(!new)>(steps: seq<Step<Panel<R>>>, a: nat) {
    && a < |steps|
    && (forall s: Panel<R> :: steps[a].whole(s) == Panel(FillLockTimes(s.times), s.rest))
    && (forall s: Panel<R>, k: nat :: steps[a].partial(s, k) == Panel(FillLockTimesCutShort(s.times, k), s.rest))
    && (forall i :: 0 <= i < |steps| && i != a ==> LeavesLockTimes(steps[i]))
  }

  lemma {:induction false} TimesAlone<R(!new)>(steps: seq<Step<Panel<R>>>, a: nat, i: nat, s: Panel<R>, t: Panel<R>)
    requires FillsLockTimes(steps, a) && a < i && s.rest == t.rest
    ensures Final(steps, i, s).times == s.times && Final(steps, i, s).rest == Final(steps, i, t).rest
    decreases |steps| - i
  {
    if i < |steps| {
      assert LeavesLockTimes(steps[i]);
      TimesAlone(steps, a, i + 1, steps[i].whole(s), steps[i].whole(t));
    }
  }

  lemma {:induction false} TimesBefore<R(!new)>(steps: seq<Step<Panel<R>>>, a: nat, i: nat, s: Panel<R>)
    requires FillsLockTimes(steps, a) && i <= a
    ensures Upto(steps, i, a, s).times == s.times
    decreases a - i
  {
    if i < a {
      assert LeavesLockTimes(steps[i]);
      TimesBefore(steps, a, i + 1, steps[i].whole(s));
    }
  }

  /** What the rest of the chain makes of the schema that this step leaves and of the one it finds. */
  lemma CutTimes<R(!new)>(steps: seq<Step<Panel<R>>>, a: nat, found: Panel<R>, k: nat)
    requires FillsLockTimes(steps, a)
    ensures Final(steps, a, steps[a].partial(found, k)) == Final(steps, a, found)
      <==> found.times.column || k != 1 || found.times.filled
  {
    var cut := steps[a].partial(found, k);
    FinalStep(steps, a, cut);
    FinalStep(steps, a, found);
    hide Final;
    TimesAlone(steps, a, a + 1, steps[a].whole(cut), steps[a].whole(found));
    TimesAlone(steps, a, a + 1, steps[a].whole(found), steps[a].whole(cut));
  }

  /** A chain that holds this step, cut short in it and rerun, ends with the schema of an
      uninterrupted run if and only if the column was there already, or the step was not cut
      between its two writes, or there was nothing to fill. */
  lemma LockTimesResume<R(!new)>(steps: seq<Step<Panel<R>>>, canary: Panel<R> -> bool, db: Db<Panel<R>>, a: nat, k: nat)
    requires FillsLockTimes(steps, a)
    requires ProperVersions(steps) && CanaryLate(steps, canary) && Steady(steps, canary, db)
    requires !(Current(db) == "" && canary(db.schema))
    requires Position(steps, canary, db) <= a
    ensures var broken, s := Run(steps, canary, db, CutShort(InStep(a, k))).0, db.schema.times;
      Run(steps, canary, broken, Smooth()).0.schema == Run(steps, canary, db, Smooth()).0.schema
      <==> s.column || k != 1 || s.filled
  {
    hide Run, Steady, Position, CanaryLate, ProperVersions, Smooth, Final, Upto;
    ResumesIff(steps, canary, db, a, InStep(a, k));
    TimesBefore(steps, a, Position(steps, canary, db), db.schema);
    CutTimes(steps, a, Upto(steps, Position(steps, canary, db), a, db.schema), k);
  }

  // ----- the chain as it runs -----

  lemma {:induction false} FirstMatch<S>(steps: seq<Step<S>>, v: string, i: nat, n: nat)
    requires i < n <= |steps| && steps[i].version == v && forall j :: 0 <= j < i ==> steps[j].version != v
    ensures After(steps, v, n) == i + 1
  {
    if i < n - 1 { FirstMatch(steps, v, i, n - 1); }
  }

  lemma ExecuteEnd<S>(steps: seq<Step<S>>, i: nat, db: Db<S>, stop: Stop)
    ensures i == |steps| ==> Execute(steps, i, db, stop) == (db, true)
  {
  }

  class Database<S(!new)> {
    const steps: seq<Step<S>>
    const canary: S -> bool
    var rows: seq<string>
    var schema: S

    ghost function Now(): Db<S>
      reads this
    {
      Db(rows, schema)
    }

    constructor (steps: seq<Step<S>>, canary: S -> bool, rows: seq<string>, schema: S)
      ensures this.steps == steps && this.canary == canary && Now() == Db(rows, schema)
    {
      this.steps, this.canary, this.rows, this.schema := steps, canary, rows, schema;
    }

    /** Record a version. */
    method Record(version: string, o: Write) returns (ok: bool)
      modifies this`rows
      ensures rows == (if o == Lost then old(rows) else old(rows) + [version]) && ok == (o == Acked)
    {
      if o != Lost { rows := rows + [version]; }
      ok := o == Acked;
    }

    /** One step and its record. */
    method RunStep(i: nat, stop: Stop) returns (ok: bool)
      requires i < |steps|
      modifies this
      ensures ok ==> Execute(steps, i + 1, Now(), stop) == Execute(steps, i, old(Now()), stop)
      ensures !ok ==> (Now(), false) == Execute(steps, i, old(Now()), stop)
    {
      if stop.InStep? && stop.i == i {
        schema := steps[i].partial(schema, stop.k);
        return false;
      }
      schema := steps[i].whole(schema);
      ok := Record(steps[i].version, if stop.AtRecord? && stop.i == i then stop.o else Acked);
    }

    /** The loop over the list, and the end of the run. */
    method RunSteps(current: string, e: RunEnv) returns (ok: bool)
      modifies this
      ensures (Now(), ok) == RunFrom(steps, old(Now()), current, e)
    {
      hide After, IsBeta;
      var start := StartAt(steps, current);
      ExecuteEnd(steps, start, Now(), e.stop);
      if start > |steps| { return false; }
      var applied := current == "" || current == BASELINE;
      for i := 0 to |steps|
        invariant
          applied ==> start <= i && Execute(steps, i, Now(), e.stop) == Execute(steps, start, old(Now()), e.stop)
        invariant !applied ==>
          && Now() == old(Now()) && current != "" && current != BASELINE
          && forall j :: 0 <= j < i ==> steps[j].version != current
      {
        if !applied {
          if steps[i].version == current {
            FirstMatch(steps, current, i, |steps|);
            applied := true;
          }
          continue;
        }
        var went := RunStep(i, e.stop);
        if !went { return false; }
      }
      ExecuteEnd(steps, |steps|, Now(), e.stop);
      hide Execute;
      if rows == [] || !e.countOk {
        ok := Record(Latest(steps), e.last);
        return;
      }
      ok := true;
    }

    /** `RunUpgrades`. */
    method RunUpgrades(e: RunEnv) returns (ok: bool)
      modifies this
      ensures (Now(), ok) == Run(steps, canary, old(Now()), e)
    {
      PlainWords();
      hide RunFrom, IsBeta;
      if !e.readOk { return false; }
      var current := if rows == [] then "" else rows[|rows| - 1];
      if current == "" && canary(schema) {
        ok := Record(Latest(steps), e.installed);
        return;
      }
      if current != "" && IsBeta(current) {
        if e.deleted != Lost { rows := []; }
        if e.deleted == Acked {
          var normalized := Record(BASELINE, e.baseline);
          assert [] + [BASELINE] == [BASELINE];
          if normalized { current := BASELINE; }
        }
      }
      ok := RunSteps(current, e);
    }
  }
}
