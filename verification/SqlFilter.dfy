/**
 The filter a restore streams SQL through.  A byte is a char below 256.  The filter
 holds a statement back until its beginning decides whether the statement is dropped;
 `Filtered` says, over the whole input at once, what it must write.  How a beginning
 decides is a parameter here: nothing in this module depends on it.
 */
module SqlFilter {
  import opened Common
  import opened SqlPrefix

  type Judge = string -> Verdict

  const MAX_PREFIX := 256

  predicate Blank(b: char) { b in {'\r', '\n', '\t', ' '} }

  /** Where a byte is, with respect to quotes. */
  datatype Quote = Outside | InSingle(escaped: bool) | InDouble(escaped: bool) | InBacktick

  function Quoted(q: Quote, b: char): Quote {
    match q
    case InSingle(true) => InSingle(false)
    case InSingle(false) => if b == '\\' then InSingle(true) else if b == '\'' then Outside else q
    case InDouble(true) => InDouble(false)
    case InDouble(false) => if b == '\\' then InDouble(true) else if b == '"' then Outside else q
    case InBacktick => if b == '`' then Outside else q
    case Outside =>
      if b == '\'' then InSingle(false) else if b == '"' then InDouble(false) else if b == '`' then InBacktick else q
  }

  // ----- what is written, over the whole input -----

  /** The length of the string the code builds from the bytes: `string(b)` takes two bytes from 0x80 on. */
  function Weight(p: string): nat {
    if p == "" then 0 else Weight(p[..|p| - 1]) + if p[|p| - 1] as int >= 0x80 then 2 else 1
  }

  /** The beginning of a statement that ends the holding back. */
  predicate Settles(d: Judge, p: string) { d(p).decided || Weight(p) >= MAX_PREFIX }

  /** A beginning that settles without a decision lets the statement pass. */
  predicate Drops(d: Judge, p: string) { d(p).decided && d(p).skip }

  /** The shortest settling beginning of the statement at i that is longer than k - i; beyond
      the input if there is none. */
  function SettledFrom(d: Judge, s: string, i: nat, k: nat): (n: nat)
    requires i <= k <= |s|
    ensures k < n <= |s| + 1
    ensures forall j :: k < j < n ==> !Settles(d, s[i..j])
    ensures n <= |s| ==> Settles(d, s[i..n])
    decreases |s| - k
  {
    hide Settles;
    if k == |s| then |s| + 1
    else if Settles(d, s[i..k + 1]) then k + 1
    else SettledFrom(d, s, i, k + 1)
  }

  /** The end of a statement from k on: after the first semicolon outside quotes. */
  function EndFrom(s: string, k: nat, q: Quote): (e: nat)
    requires k <= |s|
    ensures k <= e <= |s|
    ensures e == |s| || (k < e && s[e - 1] == ';')
    decreases |s| - k
  {
    if k == |s| then k
    else if q == Outside && s[k] == ';' then k + 1
    else EndFrom(s, k + 1, Quoted(q, s[k]))
  }

  /** The statement that starts at i: where it ends and whether it is dropped. */
  function Statement(d: Judge, s: string, i: nat): (r: (nat, bool))
    requires i < |s|
    ensures i < r.0 <= |s|
  {
    hide Settles;
    var k := SettledFrom(d, s, i, i);
    if k > |s| then (|s|, false)
    else
      var skip := Drops(d, s[i..k]);
      (if skip && s[k - 1] == ';' then k else EndFrom(s, k, Outside), skip)
  }

  /** What must be written for the input from i on, when a statement may start there. */
  function Filtered(d: Judge, s: string, i: nat): string
    requires i <= |s|
    decreases |s| - i
  {
    if i == |s| then ""
    else if Blank(s[i]) then [s[i]] + Filtered(d, s, i + 1)
    else
      var (e, skip) := Statement(d, s, i);
      (if skip then "" else s[i..e]) + Filtered(d, s, e)
  }

  function Concat(chunks: seq<string>): string {
    if chunks == [] then "" else Concat(chunks[..|chunks| - 1]) + chunks[|chunks| - 1]
  }

  // ----- the streaming filter -----

  /** What the filter remembers: the statement it is in started at `at`. */
  datatype Memory = Between | Holding(at: nat) | Passing(quote: Quote) | Dropping(quote: Quote)

  /** What must still be written when the input up to pos has been read. */
  ghost function Pending(d: Judge, s: string, pos: nat, m: Memory): string
    requires pos <= |s| && (m.Holding? ==> m.at <= pos)
  {
    match m
    case Between => Filtered(d, s, pos)
    case Holding(at) => Filtered(d, s, at)
    case Passing(q) => s[pos..EndFrom(s, pos, q)] + Filtered(d, s, EndFrom(s, pos, q))
    case Dropping(q) => Filtered(d, s, EndFrom(s, pos, q))
  }

  /** No beginning of the statement at `at` longer than k - at settles it by pos. */
  ghost predicate Unsettled(d: Judge, s: string, at: nat, k: nat, pos: nat) {
    at <= k <= pos <= |s| && forall j :: k < j <= pos ==> !Settles(d, s[at..j])
  }

  /** A blank between statements is written as it is. */
  lemma BlankStep(d: Judge, s: string, pos: nat)
    requires pos < |s| && Blank(s[pos])
    ensures Pending(d, s, pos, Between) == [s[pos]] + Pending(d, s, pos + 1, Between)
  {
  }

  /** The beginning that settles a statement. */
  lemma {:induction false} SettlesHere(d: Judge, s: string, at: nat, pos: nat, k: nat)
    requires pos < |s| && Unsettled(d, s, at, k, pos) && Settles(d, s[at..pos + 1])
    ensures SettledFrom(d, s, at, k) == pos + 1
    decreases pos - k
  {
    hide Settles;
    if k < pos { SettlesHere(d, s, at, pos, k + 1); }
  }

  lemma FilteredStatement(d: Judge, s: string, at: nat)
    requires at < |s| && !Blank(s[at])
    ensures
      var (e, skip) := Statement(d, s, at); Filtered(d, s, at) == (if skip then "" else s[at..e]) + Filtered(d, s, e)
  {
    hide Statement;
  }

  lemma Regroup(s: string, i: nat, k: nat, e: nat, rest: string)
    requires i <= k <= e <= |s|
    ensures s[i..e] + rest == s[i..k] + (s[k..e] + rest)
  {
  }

  lemma StatementHere(d: Judge, s: string, at: nat, pos: nat)
    requires pos < |s| && Unsettled(d, s, at, at, pos) && Settles(d, s[at..pos + 1])
    ensures Statement(d, s, at) ==
      var drops := Drops(d, s[at..pos + 1]);
      (if drops && s[pos] == ';' then pos + 1 else EndFrom(s, pos + 1, Outside), drops)
  {
    hide Settles, Unsettled, SettledFrom, EndFrom;
    SettlesHere(d, s, at, pos, at);
  }

  function WhenSettled(d: Judge, p: string): Memory
    requires p != ""
    ensures !WhenSettled(d, p).Holding?
  {
    if !Drops(d, p) then Passing(Outside) else if p[|p| - 1] == ';' then Between else Dropping(Outside)
  }

  lemma WhenSettledIs(d: Judge, s: string, at: nat, pos: nat)
    requires at <= pos < |s|
    ensures WhenSettled(d, s[at..pos + 1]) ==
      if !Drops(d, s[at..pos + 1]) then Passing(Outside) else if s[pos] == ';' then Between else Dropping(Outside)
  {
    hide Drops;
    assert s[at..pos + 1][pos - at] == s[pos];
  }

  /** Once settled, a statement is written with what was held, or dropped with it. */
  lemma SettleStep(d: Judge, s: string, at: nat, pos: nat)
    requires at <= pos < |s| && !Blank(s[at]) && Unsettled(d, s, at, at, pos) && Settles(d, s[at..pos + 1])
    ensures Filtered(d, s, at) ==
      (if Drops(d, s[at..pos + 1]) then "" else s[at..pos + 1]) + Pending(d, s, pos + 1, WhenSettled(d, s[at..pos + 1]))
  {
    hide Settles, Filtered, Unsettled, Statement, SettledFrom, EndFrom, WhenSettled, Drops, Blank;
    FilteredStatement(d, s, at);
    StatementHere(d, s, at, pos);
    WhenSettledIs(d, s, at, pos);
    if !Drops(d, s[at..pos + 1]) {
      var e := EndFrom(s, pos + 1, Outside);
      Regroup(s, at, pos + 1, e, Filtered(d, s, e));
    }
  }

  /** An unsettled statement at the end of the input is written. */
  lemma EndHolding(d: Judge, s: string, at: nat)
    requires at < |s| && !Blank(s[at]) && Unsettled(d, s, at, at, |s|)
    ensures Filtered(d, s, at) == s[at..]
  {
    hide Settles;
    var k := SettledFrom(d, s, at, at);
    assert k > |s|;
    FilteredStatement(d, s, at);
  }

  lemma EndStep(s: string, pos: nat, q: Quote)
    requires pos < |s|
    ensures
      EndFrom(s, pos, q) == if q == Outside && s[pos] == ';' then pos + 1 else EndFrom(s, pos + 1, Quoted(q, s[pos]))
  {
    hide Quoted;
  }

  /** One byte of a settled statement. */
  lemma PassStep(d: Judge, s: string, pos: nat, q: Quote)
    requires pos < |s|
    ensures Pending(d, s, pos, Passing(q)) ==
      [s[pos]] + Pending(d, s, pos + 1, if q == Outside && s[pos] == ';' then Between else Passing(Quoted(q, s[pos])))
    ensures Pending(d, s, pos, Dropping(q)) ==
      Pending(d, s, pos + 1, if q == Outside && s[pos] == ';' then Between else Dropping(Quoted(q, s[pos])))
  {
    hide Filtered;
    EndStep(s, pos, q);
    hide EndFrom, Quoted;
    var e := EndFrom(s, pos, q);
    Regroup(s, pos, pos + 1, e, Filtered(d, s, e));
    assert s[pos..pos + 1] == [s[pos]];
    if q == Outside && s[pos] == ';' { assert s[pos + 1..e] + Filtered(d, s, e) == Filtered(d, s, e); }
  }

  /** The variables of the loop. */
  datatype State = State(
    prefix: string, held: string, inStatement: bool, skip: bool, decided: bool,
    single: bool, double: bool, backtick: bool, escaped: bool)

  const START := State("", "", false, false, false, false, false, false, false)

  function QuoteOf(st: State): Quote {
    if st.single then InSingle(st.escaped)
    else if st.double then InDouble(st.escaped)
    else if st.backtick then InBacktick
    else Outside
  }

  function MemoryOf(st: State, at: nat): Memory {
    if !st.inStatement then Between
    else if !st.decided then Holding(at)
    else if st.skip then Dropping(QuoteOf(st))
    else Passing(QuoteOf(st))
  }

  /** The quote flags exclude each other. */
  predicate ProperFlags(st: State) {
    !(st.single && st.double) && !(st.backtick && (st.single || st.double)) && (st.escaped ==> st.single || st.double)
  }

  /** What the variables mean when the input up to pos has been read.  In particular,
      bytes are held only while undecided or dropping, and then they are the statement so far. */
  ghost predicate Means(d: Judge, s: string, pos: nat, st: State, at: nat) {
    && at <= pos <= |s|
    && ProperFlags(st)
    && (!st.inStatement ==> QuoteOf(st) == Outside && st.held == "" && !st.skip)
    && (st.inStatement && !st.decided ==>
          && QuoteOf(st) == Outside && !st.skip && at < pos && !Blank(s[at])
          && st.prefix == s[at..pos] && Unsettled(d, s, at, at, pos))
    && (st.held != "" ==> st.inStatement && (!st.decided || st.skip))
    && (st.inStatement && !st.decided ==> st.held == st.prefix)
  }

  /** The quote flags after a byte of a settled statement, and whether it ends there. */
  method Track(st: State, b: char) returns (next: State)
    requires st.inStatement && st.decided
    requires ProperFlags(st)
    ensures QuoteOf(st) == Outside && b == ';' ==> next == START
    ensures !(QuoteOf(st) == Outside && b == ';') ==>
      && next == st.(single := next.single, double := next.double, backtick := next.backtick, escaped := next.escaped)
      && QuoteOf(next) == Quoted(QuoteOf(st), b)
    ensures ProperFlags(next)
  {
    next := st;
    if st.single || st.double {
      if st.escaped {
        next := next.(escaped := false);
      } else if b == '\\' {
        next := next.(escaped := true);
      } else if st.single && b == '\'' {
        next := next.(single := false);
      } else if st.double && b == '"' {
        next := next.(double := false);
      }
    } else if st.backtick {
      if b == '`' { next := next.(backtick := false); }
    } else {
      if b == '\'' {
        next := next.(single := true);
      } else if b == '"' {
        next := next.(double := true);
      } else if b == '`' {
        next := next.(backtick := true);
      } else if b == ';' {
        next := next.(inStatement := false, skip := false, decided := false, prefix := "", held := "");
      }
    }
  }

  lemma StillUnsettled(d: Judge, s: string, at: nat, pos: nat)
    requires Unsettled(d, s, at, at, pos) && at < pos
    ensures Weight(s[at..pos]) < MAX_PREFIX
  {
    assert !Settles(d, s[at..pos]);
  }

  lemma NothingYet(d: Judge, s: string, at: nat)
    requires at <= |s|
    ensures Unsettled(d, s, at, at, at) && s[at..at] == "" && Weight("") == 0
  {
  }

  lemma FlagsOf(d: Judge, s: string, pos: nat, st: State, at: nat)
    requires Means(d, s, pos, st, at)
    ensures ProperFlags(st) && (st.inStatement && st.decided && !st.skip ==> st.held == "")
  {
  }

  /** A byte of a settled statement changes only the flags, or ends the statement. */
  lemma StillMeans(d: Judge, s: string, pos: nat, st: State, next: State, at: nat)
    requires Means(d, s, pos, st, at) && pos < |s| && st.inStatement && st.decided && ProperFlags(next)
    requires
      || next == START
      || next == st.(single := next.single, double := next.double, backtick := next.backtick, escaped := next.escaped)
    ensures Means(d, s, pos + 1, next, at)
  {
    hide Unsettled;
  }

  /** One byte of a settled statement. */
  method Pass(d: Judge, st: State, b: char, ghost s: string, ghost pos: nat, ghost at: nat)
    returns (next: State, written: string)
    requires pos < |s| && s[pos] == b && Means(d, s, pos, st, at) && st.inStatement && st.decided
    ensures Means(d, s, pos + 1, next, at)
    ensures Pending(d, s, pos, MemoryOf(st, at)) == written + Pending(d, s, pos + 1, MemoryOf(next, at))
  {
    hide Filtered, EndFrom, Quoted, Unsettled, Settles, Means;
    PassStep(d, s, pos, QuoteOf(st));
    hide Pending, Blank;
    next, written := st, "";
    FlagsOf(d, s, pos, st, at);
    if !next.skip {
      written := next.held + [b];
      assert written == [b];
      next := next.(held := "");
    }
    next := Track(next, b);
    StillMeans(d, s, pos, st, next, at);
  }

  /** One more byte of an undecided statement. */
  method Hold(d: Judge, st: State, b: char, ghost s: string, ghost pos: nat, ghost at: nat)
    returns (next: State, written: string)
    requires at <= pos < |s| && s[pos] == b && !Blank(s[at]) && st.prefix == st.held == s[at..pos]
    requires Unsettled(d, s, at, at, pos)
    requires st.inStatement && !st.decided && !st.skip && !st.single && !st.double && !st.backtick && !st.escaped
    ensures Means(d, s, pos + 1, next, at)
    ensures Filtered(d, s, at) == written + Pending(d, s, pos + 1, MemoryOf(next, at))
  {
    hide Filtered, Pending, Settles, Unsettled, Blank, WhenSettled;
    next, written := st.(prefix := st.prefix + [b], held := st.held + [b]), "";
    assert s[at..pos + 1] == s[at..pos] + [b];
    SettlesOrNot(d, s, at, pos);
    var verdict := d(next.prefix);
    if verdict.decided {
      SettleStep(d, s, at, pos);
      next := next.(decided := true, skip := verdict.skip);
      if !next.skip {
        written := next.held;
        next := next.(held := "");
      } else if b == ';' {
        next := next.(inStatement := false, skip := false, decided := false, prefix := "", held := "");
      }
      return;
    }
    if Weight(next.prefix) >= MAX_PREFIX {
      SettleStep(d, s, at, pos);
      written := next.held;
      next := next.(decided := true, held := "");
    }
  }

  /** What the next byte of an undecided statement settles, and what it leaves open. */
  lemma SettlesOrNot(d: Judge, s: string, at: nat, pos: nat)
    requires at <= pos < |s| && Unsettled(d, s, at, at, pos)
    ensures var p := s[at..pos + 1];
      && (Settles(d, p) <==> d(p).decided || Weight(p) >= MAX_PREFIX)
      && (!Settles(d, p) ==> Unsettled(d, s, at, at, pos + 1))
      && WhenSettled(d, p) == (if !(d(p).decided && d(p).skip) then Passing(Outside)
                               else if s[pos] == ';' then Between else Dropping(Outside))
      && Pending(d, s, pos + 1, Holding(at)) == Filtered(d, s, at)
  {
    hide Filtered;
    assert s[at..pos + 1][pos - at] == s[pos];
  }

  /** One byte. */
  method Take(d: Judge, st: State, b: char, ghost s: string, ghost pos: nat, ghost at: nat)
    returns (next: State, written: string, ghost start: nat)
    requires pos < |s| && s[pos] == b && Means(d, s, pos, st, at)
    ensures Means(d, s, pos + 1, next, start)
    ensures Pending(d, s, pos, MemoryOf(st, at)) == written + Pending(d, s, pos + 1, MemoryOf(next, start))
  {
    hide Filtered, EndFrom, Quoted, Unsettled;
    assert st.inStatement && !st.decided ==> Weight(st.prefix) < MAX_PREFIX by {
      if st.inStatement && !st.decided { StillUnsettled(d, s, at, pos); }
    }
    hide Settles;
    next, written, start := st, "", at;
    var outside := !st.single && !st.double && !st.backtick;
    if outside && !st.inStatement {
      if Blank(b) {
        BlankStep(d, s, pos);
        written := [b];
        return;
      }
      NothingYet(d, s, pos);
      next, start := next.(inStatement := true, skip := false, decided := false, prefix := "", held := ""), pos;
    }
    if next.inStatement && outside && !next.decided && Weight(next.prefix) < MAX_PREFIX {
      next, written := Hold(d, next, b, s, pos, start);
      return;
    }
    next, written := Pass(d, st, b, s, pos, at);
  }

  lemma MeansStart(d: Judge, s: string)
    ensures Means(d, s, 0, START, 0) && Pending(d, s, 0, MemoryOf(START, 0)) == Filtered(d, s, 0)
  {
  }

  lemma MeansAt(d: Judge, s: string, pos: nat, st: State, at: nat)
    requires Means(d, s, pos, st, at)
    ensures at <= pos <= |s|
  {
  }

  /** What is left to write at the end of the input is what is held, unless it is being dropped. */
  lemma AtEnd(d: Judge, s: string, st: State, at: nat)
    requires Means(d, s, |s|, st, at)
    ensures Pending(d, s, |s|, MemoryOf(st, at)) == if st.skip then "" else st.held
  {
    hide Settles;
    if st.inStatement && !st.decided { EndHolding(d, s, at); }
  }

  lemma ConcatPrefix(chunks: seq<string>, n: nat)
    requires n < |chunks|
    ensures Concat(chunks[..n + 1]) == Concat(chunks[..n]) + chunks[n]
  {
    assert chunks[..n + 1][..n] == chunks[..n];
  }

  /** The input read so far is a prefix of the whole. */
  lemma {:induction false} ConcatGrows(chunks: seq<string>, n: nat)
    requires n <= |chunks|
    ensures Concat(chunks[..n]) <= Concat(chunks)
    decreases |chunks| - n
  {
    if n == |chunks| {
      assert chunks[..n] == chunks;
    } else {
      ConcatPrefix(chunks, n);
      ConcatGrows(chunks, n + 1);
    }
  }

  /** A destination that fails after `room` bytes, if there is a limit, takes n bytes. */
  predicate Fits(room: Option<nat>, n: nat) { room.Some? ==> n <= room.value }

  /** What such a destination takes of a text. */
  function Taken(room: Option<nat>, text: string): string {
    if Fits(room, |text|) then text else text[..room.value]
  }

  lemma TakenEarly(room: Option<nat>, text: string, more: string)
    requires !Fits(room, |text|)
    ensures Taken(room, text) == Taken(room, text + more) <= text + more && !Fits(room, |text + more|)
    ensures |Taken(room, text)| == room.value
  {
  }

  lemma {:induction false} WeightAtLeast(p: string)
    ensures |p| <= Weight(p)
  {
    if p != "" { WeightAtLeast(p[..|p| - 1]); }
  }

  /** What is held when reading stops is short, unless it is being dropped. */
  lemma HeldIsShort(d: Judge, s: string, st: State, at: nat)
    requires Means(d, s, |s|, st, at)
    ensures st.skip || |st.held| < MAX_PREFIX
  {
    hide Settles;
    if st.inStatement && !st.decided {
      StillUnsettled(d, s, at, |s|);
      WeightAtLeast(st.held);
    }
  }

  /** `writeSanitizedRestoreSQL`.  Whatever the reads return, what is written depends only on
      their concatenation; a destination that fails has taken a prefix of it.  When reading
      fails, what has been written is right whatever `rest` would have followed, and with
      nothing to follow it lacks less than a prefix. */
  method Sanitize(d: Judge, chunks: seq<string>, readOk: bool, room: Option<nat>, ghost rest: string)
    returns (ok: bool, out: string)
    ensures ok <==> readOk && Fits(room, |Filtered(d, Concat(chunks), 0)|)
    ensures readOk ==> out == Taken(room, Filtered(d, Concat(chunks), 0))
    ensures !readOk ==> out <= Filtered(d, Concat(chunks) + rest, 0)
    ensures !readOk && rest == "" ==> |out| + MAX_PREFIX > |Filtered(d, Concat(chunks), 0)| || room == Some(|out|)
  {
    hide Filtered, Means;
    ghost var s := Concat(chunks) + if readOk then "" else rest;
    assert readOk || rest == "" ==> s == Concat(chunks);
    ghost var at: nat, pos: nat := 0, 0;
    var st := START;
    out := "";
    MeansStart(d, s);
    for i := 0 to |chunks|
      invariant pos <= |s| && s[..pos] == Concat(chunks[..i]) && Means(d, s, pos, st, at) && at <= pos
      invariant out + Pending(d, s, pos, MemoryOf(st, at)) == Filtered(d, s, 0) && Fits(room, |out|)
    {
      ConcatPrefix(chunks, i);
      ConcatGrows(chunks, i + 1);
      ghost var base: nat := pos;
      for j := 0 to |chunks[i]|
        invariant pos == base + j <= |s| && Means(d, s, pos, st, at) && at <= pos
        invariant out + Pending(d, s, pos, MemoryOf(st, at)) == Filtered(d, s, 0) && Fits(room, |out|)
      {
        assert s[pos] == chunks[i][j];
        ghost var before := out;
        var written;
        st, written, at := Take(d, st, chunks[i][j], s, pos, at);
        out := out + written;
        pos := pos + 1;
        MeansAt(d, s, pos, st, at);
        Reassociate(before, written, Pending(d, s, pos, MemoryOf(st, at)));
        if !Fits(room, |out|) {
          TakenEarly(room, out, Pending(d, s, pos, MemoryOf(st, at)));
          return false, Taken(room, out);
        }
      }
      assert s[..pos] == Concat(chunks[..i + 1]);
    }
    assert chunks[..|chunks|] == chunks;
    if s == Concat(chunks) {
      assert pos == |s|;
      AtEnd(d, s, st, at);
      HeldIsShort(d, s, st, at);
    }
    if !readOk { return false, out; }
    if !st.skip {
      out := out + st.held;
    }
    ok := Fits(room, |out|);
    out := Taken(room, out);
  }

  // ----- what the filter does to the input -----

  /** out consists of the bytes of s at the places ix, in order, all at or after i. */
  ghost predicate Selects(s: string, i: nat, ix: seq<int>, out: string) {
    && |ix| == |out|
    && (forall k, l :: 0 <= k < l < |ix| ==> ix[k] < ix[l])
    && (forall k :: 0 <= k < |ix| ==> i <= ix[k] < |s| && out[k] == s[ix[k]])
  }

  ghost predicate Subsequence(s: string, i: nat, out: string) {
    exists ix :: Selects(s, i, ix, out)
  }

  lemma KeepStep(s: string, i: nat, e: nat, rest: string)
    requires i <= e <= |s| && Subsequence(s, e, rest)
    ensures Subsequence(s, i, s[i..e] + rest) && Subsequence(s, i, rest)
  {
    var jx :| Selects(s, e, jx, rest);
    var ix := seq(e - i, k requires 0 <= k => i + k);
    assert Selects(s, i, ix + jx, s[i..e] + rest);
    assert Selects(s, i, jx, rest);
  }

  /** What is written is a subsequence of the input: nothing is changed, added or reordered. */
  lemma {:induction false} FilteredIsSubsequence(d: Judge, s: string, i: nat)
    requires i <= |s|
    ensures Subsequence(s, i, Filtered(d, s, i))
    decreases |s| - i
  {
    if i == |s| {
      assert Selects(s, i, [], "");
    } else {
      var e := if Blank(s[i]) then i + 1 else Statement(d, s, i).0;
      if !Blank(s[i]) { FilteredStatement(d, s, i); }
      FilteredIsSubsequence(d, s, e);
      KeepStep(s, i, e, Filtered(d, s, e));
      assert "" + Filtered(d, s, e) == Filtered(d, s, e) && s[i..i + 1] == [s[i]];
    }
  }

  /** No statement of the input from i on is dropped. */
  predicate NothingDropped(d: Judge, s: string, i: nat)
    requires i <= |s|
    decreases |s| - i
  {
    if i == |s| then true
    else if Blank(s[i]) then NothingDropped(d, s, i + 1)
    else
      var (e, skip) := Statement(d, s, i);
      !skip && NothingDropped(d, s, e)
  }

  /** The filter is the identity exactly when no statement is dropped. */
  lemma {:induction false} IdentityIffNothingDropped(d: Judge, s: string, i: nat)
    requires i <= |s|
    ensures Filtered(d, s, i) == s[i..] <==> NothingDropped(d, s, i)
    ensures |Filtered(d, s, i)| <= |s| - i
    ensures !NothingDropped(d, s, i) ==> |Filtered(d, s, i)| < |s| - i
    decreases |s| - i
  {
    if i == |s| {
    } else if Blank(s[i]) {
      IdentityIffNothingDropped(d, s, i + 1);
      assert s[i..] == [s[i]] + s[i + 1..];
    } else {
      FilteredStatement(d, s, i);
      var (e, skip) := Statement(d, s, i);
      DroppedStep(d, s, i);
      hide Filtered, Statement, NothingDropped, Blank;
      IdentityIffNothingDropped(d, s, e);
      if !skip { KeptWhole(s, i, e, Filtered(d, s, e)); }
    }
  }

  lemma KeptWhole(s: string, i: nat, e: nat, rest: string)
    requires i <= e <= |s|
    ensures s[i..e] + rest == s[i..] <==> rest == s[e..]
    ensures |s[i..e] + rest| == e - i + |rest|
  {
    assert s[i..] == s[i..e] + s[e..];
    assert (s[i..e] + rest)[e - i..] == rest;
  }

  lemma DroppedStep(d: Judge, s: string, i: nat)
    requires i < |s| && !Blank(s[i])
    ensures NothingDropped(d, s, i) <==> !Statement(d, s, i).1 && NothingDropped(d, s, Statement(d, s, i).0)
  {
    hide Statement;
  }

  /** A statement is dropped exactly when the first beginning of it that settles it says so. */
  lemma DroppedWhole(d: Judge, s: string, i: nat, k: nat)
    requires i < k <= |s| && !Blank(s[i]) && Settles(d, s[i..k]) && Unsettled(d, s, i, i, k - 1)
    ensures Statement(d, s, i).1 <==> Drops(d, s[i..k])
    ensures k <= Statement(d, s, i).0
  {
    hide Settles, Drops;
    SettlesHere(d, s, i, k - 1, i);
  }
}
