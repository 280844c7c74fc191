/**
 What the beginning of a SQL statement decides: the prefix is upper-cased, stripped of
 comments and split into words, and the first words tell whether the statement is
 dropped, kept, or still undecided.
 */
module SqlPrefix {

  // ----- strings -----

  /** Letters outside ASCII play no part in any decision and are left alone. */
  function UpperChar(c: char): char {
    if 'a' <= c <= 'z' then c - ('a' - 'A') else c
  }

  function Upper(s: string): (r: string)
    ensures |r| == |s| && forall i :: 0 <= i < |s| ==> r[i] == UpperChar(s[i])
  {
    seq(|s|, i requires 0 <= i < |s| => UpperChar(s[i]))
  }

  predicate OccursAt(s: string, pat: string, i: nat) { i + |pat| <= |s| && s[i..i + |pat|] == pat }

  predicate Occurs(s: string, pat: string) { exists i :: 0 <= i <= |s| && OccursAt(s, pat, i) }

  /** The first place at or after i where pat occurs. */
  function IndexFrom(s: string, pat: string, i: nat): (r: int)
    requires i <= |s|
    ensures r == -1 || (i <= r && r + |pat| <= |s| && OccursAt(s, pat, r))
    ensures forall j :: i <= j <= |s| && (r == -1 || j < r) ==> !OccursAt(s, pat, j)
    decreases |s| - i
  {
    if OccursAt(s, pat, i) then i
    else if i == |s| then -1
    else IndexFrom(s, pat, i + 1)
  }

  predicate StartsWith(s: string, t: string) { |t| <= |s| && s[..|t|] == t }

  /** `strings.Fields`: white space includes two characters above ASCII. */
  predicate Space(c: char) { c in {'\t', '\n', '\U{0B}', '\U{0C}', '\r', ' ', '\U{85}', '\U{A0}'} }

  /** The words complete before the end of s, and the one s ends in. */
  function Scan(s: string): (seq<string>, string) {
    if s == "" then ([], "")
    else
      var (words, word) := Scan(s[..|s| - 1]);
      var c := s[|s| - 1];
      if !Space(c) then (words, word + [c]) else if word == "" then (words, "") else (words + [word], "")
  }

  function Fields(s: string): seq<string> {
    var (words, word) := Scan(s);
    if word == "" then words else words + [word]
  }

  function JoinWords(words: seq<string>): string {
    if words == [] then ""
    else if |words| == 1 then words[0]
    else JoinWords(words[..|words| - 1]) + " " + words[|words| - 1]
  }

  // ----- comments -----

  /** Replace every comment by a space; an unfinished one ends the text. */
  function Strip(s: string, begin: string, end: string): string
    requires |begin| > 0 && |end| > 0 && |begin| + |end| > 1
    decreases |s|
  {
    var start := IndexFrom(s, begin, 0);
    if start < 0 then s
    else
      var stop := IndexFrom(s, end, start + |begin|);
      if stop < 0 then s[..start] else Strip(s[..start] + " " + s[stop + |end|..], begin, end)
  }

  function Uncommented(s: string): string {
    Strip(Strip(Strip(Upper(s), "/*", "*/"), "--", "\n"), "#", "\n")
  }

  function Normalize(s: string): string { JoinWords(Fields(Uncommented(s))) }

  method StripComments(s: string, begin: string, end: string) returns (r: string)
    requires |begin| > 0 && |end| > 0 && |begin| + |end| > 1
    ensures r == Strip(s, begin, end)
  {
    hide OccursAt, Occurs;
    r := s;
    while true
      invariant Strip(r, begin, end) == Strip(s, begin, end)
      decreases |r|
    {
      var start := IndexFrom(r, begin, 0);
      if start < 0 { break; }
      var stop := IndexFrom(r, end, start + |begin|);
      if stop < 0 {
        BeforeFirst(r, begin, start);
        NothingToStrip(r[..start], begin, end);
        r := r[..start];
        break;
      }
      r := r[..start] + " " + r[stop + |end|..];
    }
  }

  /** `normalizeSQLPrefix`. */
  method NormalizeSQLPrefix(s: string) returns (r: string)
    ensures r == Normalize(s)
  {
    r := StripComments(Upper(s), "/*", "*/");
    r := StripComments(r, "--", "\n");
    r := StripComments(r, "#", "\n");
    r := JoinWords(Fields(r));
  }

  // ----- the decision -----

  datatype Verdict = Verdict(skip: bool, decided: bool)

  const UNDECIDED := Verdict(false, false)
  const KEEP := Verdict(false, true)
  const SKIP := Verdict(true, true)

  /** `restoreStatementDecision`. */
  function Decision(prefix: string): Verdict {
    if Occurs(Upper(prefix), "DEFINER=") then SKIP
    else
      var words := Fields(Normalize(prefix));
      if words == [] then UNDECIDED
      else if words[0] == "USE" then SKIP
      else if words[0] == "CREATE" then
        if |words| < 2 then UNDECIDED
        else if words[1] == "DATABASE" || StartsWith(words[1], "DEFINER=") then SKIP
        else if StartsWith("DATABASE", words[1]) || StartsWith("DEFINER=", words[1]) then UNDECIDED
        else KEEP
      else if words[0] == "DROP" then
        if |words| < 2 then UNDECIDED
        else if StartsWith("DATABASE", words[1]) && words[1] != "DATABASE" then UNDECIDED
        else Verdict(words[1] == "DATABASE", true)
      else if (forall c :: c in {' ', '\t', '\r', '\n'} ==> c !in prefix)
           && (StartsWith("USE", words[0]) || StartsWith("CREATE", words[0]) || StartsWith("DROP", words[0]))
           then UNDECIDED
      else KEEP
  }

  lemma NothingToStrip(s: string, begin: string, end: string)
    requires |begin| > 0 && |end| > 0 && |begin| + |end| > 1 && !Occurs(s, begin)
    ensures Strip(s, begin, end) == s
  {
    assert forall i :: 0 <= i <= |s| ==> !OccursAt(s, begin, i);
  }

  lemma BeforeFirst(s: string, pat: string, start: nat)
    requires start <= |s| && forall j :: 0 <= j < start ==> !OccursAt(s, pat, j)
    requires |pat| > 0
    ensures !Occurs(s[..start], pat)
  {
    forall i | 0 <= i <= start && OccursAt(s[..start], pat, i) ensures false {
      assert s[..start][i..i + |pat|] == s[i..i + |pat|];
      assert OccursAt(s, pat, i);
    }
  }

  // ----- what normalization achieves -----

  lemma OccursInPart(s: string, i: nat, j: nat, part: string, pat: string)
    requires i <= j <= |s| && part == s[i..j] && Occurs(part, pat)
    ensures Occurs(s, pat)
  {
    var k :| 0 <= k <= j - i && OccursAt(part, pat, k);
    forall x | 0 <= x < |pat| ensures s[i + k..i + k + |pat|][x] == pat[x] {
      assert part[k..k + |pat|][x] == part[k + x];
    }
    assert OccursAt(s, pat, i + k);
  }

  lemma OccursWithin(s: string, pat: string, k: nat, i: nat, j: nat)
    requires OccursAt(s, pat, k) && i <= k && k + |pat| <= j <= |s|
    ensures Occurs(s[i..j], pat)
  {
    var t := s[i..j];
    var n := k - i;
    forall x | 0 <= x < |pat| ensures t[n + x] == pat[x] {
      assert s[k..k + |pat|][x] == s[k + x];
    }
    assert t[n..n + |pat|] == pat;
    assert OccursAt(t, pat, n);
  }

  lemma Straddles(s: string, pat: string, i: nat, n: nat)
    requires OccursAt(s, pat, i) && i <= n < i + |pat|
    ensures s[n] in pat
  {
    assert s[i..i + |pat|][n - i] == s[n];
  }

  lemma NotInEmpty(pat: string)
    requires |pat| > 0
    ensures !Occurs("", pat)
  {
  }

  /** A pattern without spaces does not straddle a space. */
  lemma OccursBeside(x: string, y: string, pat: string)
    requires |pat| > 0 && ' ' !in pat && Occurs(x + " " + y, pat)
    ensures Occurs(x, pat) || Occurs(y, pat)
  {
    var s, n := x + " " + y, |x|;
    var i :| 0 <= i <= |s| && OccursAt(s, pat, i);
    if i <= n < i + |pat| { Straddles(s, pat, i, n); }
    assert x == s[0..n] && y == s[n + 1..|s|];
    if i + |pat| <= n { OccursWithin(s, pat, i, 0, n); } else if i > n { OccursWithin(s, pat, i, n + 1, |s|); }
  }

  /** Stripping comments leaves none that opens in the same way. */
  lemma {:induction false} StripClean(s: string, begin: string, end: string)
    requires |begin| > 0 && |end| > 0 && |begin| + |end| > 1
    ensures !Occurs(Strip(s, begin, end), begin)
    decreases |s|
  {
    hide OccursAt, Occurs;
    var start := IndexFrom(s, begin, 0);
    if start < 0 {
      BeforeFirst(s, begin, |s|);
      assert s[..|s|] == s;
      NoneAtEnd(s, begin);
    } else {
      BeforeFirst(s, begin, start);
      var stop := IndexFrom(s, end, start + |begin|);
      if stop >= 0 { StripClean(s[..start] + " " + s[stop + |end|..], begin, end); }
    }
  }

  lemma NoneAtEnd(s: string, pat: string)
    requires |pat| > 0 && forall j :: 0 <= j <= |s| ==> !OccursAt(s, pat, j)
    ensures !Occurs(s, pat)
  {
  }

  /** Nor does it create an occurrence of anything without spaces. */
  lemma {:induction false} StripKeepsOut(s: string, begin: string, end: string, pat: string)
    requires |begin| > 0 && |end| > 0 && |begin| + |end| > 1 && |pat| > 0 && ' ' !in pat && !Occurs(s, pat)
    ensures !Occurs(Strip(s, begin, end), pat)
    decreases |s|
  {
    hide OccursAt, Occurs;
    var start := IndexFrom(s, begin, 0);
    if start >= 0 {
      var stop := IndexFrom(s, end, start + |begin|);
      if Occurs(s[..start], pat) { OccursInPart(s, 0, start, s[..start], pat); }
      if stop >= 0 {
        if Occurs(s[stop + |end|..], pat) { OccursInPart(s, stop + |end|, |s|, s[stop + |end|..], pat); }
        if Occurs(s[..start] + " " + s[stop + |end|..], pat) { OccursBeside(s[..start], s[stop + |end|..], pat); }
        StripKeepsOut(s[..start] + " " + s[stop + |end|..], begin, end, pat);
      }
    }
  }

  ghost predicate Word(w: string) { w != "" && forall i :: 0 <= i < |w| ==> !Space(w[i]) }

  ghost predicate AllWords(ws: seq<string>) { forall i :: 0 <= i < |ws| ==> Word(ws[i]) }

  /** Splitting a joined list of words gives the words back. */
  lemma {:induction false} ScanWord(s: string, w: string)
    requires Word(w) && Scan(s).1 == ""
    ensures Scan(s + w) == (Scan(s).0, w)
  {
    var n := |w| - 1;
    assert (s + w)[..|s + w| - 1] == s + w[..n];
    if n == 0 {
      assert s + w[..n] == s;
    } else {
      ScanWord(s, w[..n]);
    }
    assert w == w[..n] + [w[n]];
  }

  lemma {:induction false} FieldsOfJoin(ws: seq<string>)
    requires AllWords(ws)
    ensures Fields(JoinWords(ws)) == ws
  {
    EmptyScan();
    hide Word, Scan;
    var n := |ws| - 1;
    if n == 0 {
      ScanWord("", ws[0]);
      assert "" + ws[0] == ws[0];
    } else if n > 0 {
      FieldsOfJoin(ws[..n]);
      ScanSpace(JoinWords(ws[..n]));
      ScanWord(JoinWords(ws[..n]) + " ", ws[n]);
    }
  }

  lemma EmptyScan()
    ensures Scan("") == ([], "") && Fields("") == [] && !Word("")
  {
  }

  lemma ScanSpace(s: string)
    ensures Scan(s + " ") == (Fields(s), "")
  {
    assert (s + " ")[..|s|] == s;
  }

  /** One more character. */
  lemma ScanStep(t: string, c: char)
    ensures var (words, word) := Scan(t);
      Scan(t + [c]) ==
        if !Space(c) then (words, word + [c]) else if word == "" then (words, "") else (words + [word], "")
  {
    hide Space;
    assert (t + [c])[..|t|] == t;
  }

  lemma OneField(w: string)
    requires Word(w)
    ensures Fields(w) == [w]
  {
    EmptyScan();
    ScanWord("", w);
    assert "" + w == w;
  }

  lemma {:induction false} ScanGap(t: string, g: string)
    requires g != "" && forall i :: 0 <= i < |g| ==> Space(g[i])
    ensures Scan(t + g) == (Fields(t), "")
  {
    hide Scan, Space;
    var n := |g| - 1;
    assert t + g == (t + g[..n]) + [g[n]];
    ScanStep(t + g[..n], g[n]);
    if n == 0 { assert t + g[..n] == t; } else { ScanGap(t, g[..n]); }
  }

  lemma TwoFields(a: string, g: string, u: string)
    requires Word(a) && g != "" && (forall i :: 0 <= i < |g| ==> Space(g[i])) && (u != "" ==> Word(u))
    ensures Fields(a + g + u) == if u == "" then [a] else [a, u]
  {
    OneField(a);
    ScanGap(a, g);
    hide Scan, Space, Word;
    if u == "" { assert a + g + u == a + g; } else { ScanWord(a + g, u); }
  }

  ghost predicate EndsIn(s: string, word: string) { |word| <= |s| && s[|s| - |word|..] == word }

  lemma EndsInStep(t: string, word: string, c: char)
    requires EndsIn(t, word)
    ensures EndsIn(t + [c], word + [c]) && EndsIn(t + [c], "")
  {
  }

  lemma WordsStep(words: seq<string>, word: string, c: char)
    requires AllWords(words) && (word != "" ==> Word(word))
    ensures word != "" ==> AllWords(words + [word])
    ensures !Space(c) ==> Word(word + [c])
  {
    hide Space;
  }

  /** The words of a text are words, and pieces of it. */
  lemma {:induction false} ScanWords(s: string)
    ensures AllWords(Scan(s).0) && (Scan(s).1 != "" ==> Word(Scan(s).1)) && EndsIn(s, Scan(s).1)
    ensures forall i, pat :: 0 <= i < |Scan(s).0| && Occurs(Scan(s).0[i], pat) ==> Occurs(s, pat)
  {
    if s != "" {
      var t, c := s[..|s| - 1], s[|s| - 1];
      assert s == t + [c];
      ScanWords(t);
      ScanStep(t, c);
      EndsInStep(t, Scan(t).1, c);
      WordsStep(Scan(t).0, Scan(t).1, c);
      hide Occurs, Scan, Space, Word;
      forall pat | Occurs(Scan(t).1, pat) ensures Occurs(s, pat) {
        OccursInPart(s, |t| - |Scan(t).1|, |t|, Scan(t).1, pat);
      }
      forall pat | Occurs(t, pat) ensures Occurs(s, pat) { OccursInPart(s, 0, |t|, t, pat); }
    }
  }

  lemma {:induction false} JoinedOccurs(ws: seq<string>, pat: string)
    requires |pat| > 0 && ' ' !in pat && Occurs(JoinWords(ws), pat)
    ensures exists i :: 0 <= i < |ws| && Occurs(ws[i], pat)
  {
    var n := |ws| - 1;
    if n < 0 {
      NotInEmpty(pat);
    } else if n > 0 {
      OccursBeside(JoinWords(ws[..n]), ws[n], pat);
      if Occurs(JoinWords(ws[..n]), pat) {
        JoinedOccurs(ws[..n], pat);
        var i :| 0 <= i < n && Occurs(ws[..n][i], pat);
        assert Occurs(ws[i], pat);
      }
    }
  }

  /** Words of s hold no pattern that s does not hold. */
  lemma FieldsKeepOut(s: string, pat: string)
    requires |pat| > 0 && ' ' !in pat && !Occurs(s, pat)
    ensures AllWords(Fields(s)) && !Occurs(JoinWords(Fields(s)), pat)
  {
    ScanWords(s);
    hide Occurs;
    if Occurs(JoinWords(Fields(s)), pat) {
      JoinedOccurs(Fields(s), pat);
      var i :| 0 <= i < |Fields(s)| && Occurs(Fields(s)[i], pat);
      if i == |Scan(s).0| { OccursInPart(s, |s| - |Scan(s).1|, |s|, Scan(s).1, pat); }
    }
  }

  /** What stripping and splitting keep out of a text without it. */
  lemma NormalizeKeepsOut(s: string, pat: string)
    requires |pat| > 0 && ' ' !in pat && !Occurs(Upper(s), pat)
    ensures !Occurs(Normalize(s), pat)
  {
    hide Occurs, Strip, JoinWords;
    var a := Strip(Upper(s), "/*", "*/");
    StripKeepsOut(Upper(s), "/*", "*/", pat);
    StripKeepsOut(a, "--", "\n", pat);
    StripKeepsOut(Strip(a, "--", "\n"), "#", "\n", pat);
    FieldsKeepOut(Uncommented(s), pat);
  }

  /** No comment opens in normalized text. */
  lemma NormalizeCommentFree(s: string)
    ensures forall pat :: pat in {"/*", "--", "#"} ==> !Occurs(Normalize(s), pat)
  {
    hide Occurs, Strip, JoinWords;
    var a := Strip(Upper(s), "/*", "*/");
    var b := Strip(a, "--", "\n");
    StripClean(Upper(s), "/*", "*/");
    StripKeepsOut(a, "--", "\n", "/*");
    StripKeepsOut(b, "#", "\n", "/*");
    StripClean(a, "--", "\n");
    StripKeepsOut(b, "#", "\n", "--");
    StripClean(b, "#", "\n");
    FieldsKeepOut(Uncommented(s), "/*");
    FieldsKeepOut(Uncommented(s), "--");
    FieldsKeepOut(Uncommented(s), "#");
  }

  lemma NoLowerCase(s: string, c: char)
    requires 'a' <= c <= 'z'
    ensures !Occurs(Normalize(s), [c])
  {
    forall i | 0 <= i <= |s| ensures !OccursAt(Upper(s), [c], i) {
      assert i < |s| ==> Upper(s)[i..i + 1] == [Upper(s)[i]];
    }
    NormalizeKeepsOut(s, [c]);
  }

  /** Normalizing twice is normalizing once. */
  lemma NormalizeIdempotent(s: string)
    ensures Normalize(Normalize(s)) == Normalize(s)
  {
    hide Occurs, Strip, JoinWords, Fields;
    var n := Normalize(s);
    forall i | 0 <= i < |n| ensures UpperChar(n[i]) == n[i] {
      if 'a' <= n[i] <= 'z' {
        NoLowerCase(s, n[i]);
        SingleOccurs(n, i);
      }
    }
    assert Upper(n) == n;
    NormalizeCommentFree(s);
    NothingToStrip(n, "/*", "*/");
    NothingToStrip(n, "--", "\n");
    NothingToStrip(n, "#", "\n");
    FieldsAreWords(Uncommented(s));
    FieldsOfJoin(Fields(Uncommented(s)));
  }

  lemma SingleOccurs(s: string, i: nat)
    requires i < |s|
    ensures Occurs(s, [s[i]])
  {
    assert OccursAt(s, [s[i]], i);
  }

  lemma FieldsAreWords(s: string)
    ensures AllWords(Fields(s))
  {
    ScanWords(s);
  }
}
