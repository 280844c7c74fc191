/**
 What a restore does to statements, said on their text: which openings make it drop a
 statement, which make it keep one, and where the statement ends.
 */
module SqlStatements {
  import opened Common
  import opened SqlPrefix
  import opened SqlFilter

  // ----- openings -----

  /** p is the upper-case word w in any letter case. */
  ghost predicate Spells(p: string, w: string) {
    |p| == |w| && forall i :: 0 <= i < |p| ==> p[i] == w[i] || ('A' <= w[i] <= 'Z' && p[i] as int == w[i] as int + 32)
  }

  /** p is a beginning of w in any letter case. */
  ghost predicate Begins(p: string, w: string) { |p| <= |w| && Spells(p, w[..|p|]) }

  ghost predicate Gap(g: string) {
    g != "" && forall i :: 0 <= i < |g| ==> g[i] in {'\t', '\n', '\U{0B}', '\U{0C}', '\r', ' '}
  }

  /** The beginning of a statement up to the byte that settles it. */
  datatype Opening = Opening(first: string, gap: string, second: string) {
    function Text(): string { first + gap + second }
  }

  /** `CREATE DATABASE`, `CREATE DEFINER=`, `DROP DATABASE`. */
  ghost predicate TwoWords(o: Opening) {
    && Gap(o.gap)
    && (|| (Spells(o.first, "CREATE") && (Spells(o.second, "DATABASE") || Spells(o.second, "DEFINER=")))
        || (Spells(o.first, "DROP") && Spells(o.second, "DATABASE")))
  }

  /** What a statement must not begin with. */
  ghost predicate Forbidden(o: Opening) {
    || (Spells(o.first, "USE") && o.gap == "" && o.second == "")
    || (TwoWords(o) && |o.Text()| <= 256)
  }

  /** A byte that neither ends a word or a statement nor opens a quotation or a comment. */
  ghost predicate Plain(c: char) {
    c !in {'\t', '\n', '\U{0B}', '\U{0C}', '\r', ' ', '\U{85}', '\U{A0}', ';', '\'', '"', '`', '#'}
  }

  /** w leaves the words ws with its last byte. */
  ghost predicate Strays(w: string, ws: seq<string>) {
    && w != "" && Plain(w[|w| - 1])
    && (exists x :: x in ws && |w| <= |x| && Begins(w[..|w| - 1], x))
    && (forall x :: x in ws ==> !Begins(w, x))
  }

  /** An opening that settles that the statement is kept: its first word turns out to be another, or ends early, or
      is longer; its second word turns out to be another; or the words are too far apart. */
  ghost predicate Harmless(o: Opening) {
    || (o.gap == "" && o.second == "" && Strays(o.first, ["USE", "CREATE", "DROP"]))
    || (o.gap == "" && o.second == "" && o.first != "" && Plain(o.first[|o.first| - 1])
        && (Spells(o.first[..|o.first| - 1], "CREATE") || Spells(o.first[..|o.first| - 1], "DROP")))
    || (o.gap in {"\t", "\n", "\r", " "} && o.second == "" && o.first != ""
        && exists x :: x in ["USE", "CREATE", "DROP"] && |o.first| < |x| && Begins(o.first, x))
    || (Gap(o.gap) && Spells(o.first, "CREATE") && Strays(o.second, ["DATABASE", "DEFINER="]))
    || (Gap(o.gap) && Spells(o.first, "DROP") && Strays(o.second, ["DATABASE"]))
    || (TwoWords(o) && |o.Text()| > 256)
  }

  // ----- the words of an opening -----

  lemma SpellsUpper(p: string, w: string)
    requires Spells(p, w) && forall i :: 0 <= i < |w| ==> w[i] == '=' || 'A' <= w[i] <= 'Z'
    ensures Upper(p) == w
  {
  }

  /** Text in which no comment opens is only split into words. */
  lemma NoComments(p: string)
    requires forall i :: 0 <= i < |p| ==> p[i] != '#' && (i < |p| - 1 ==> p[i] !in {'/', '-'})
    ensures Fields(Normalize(p)) == Fields(Upper(p))
  {
    var u := Upper(p);
    hide Strip, Fields;
    forall pat | pat in {"/*", "--", "#"} ensures !Occurs(u, pat) {
      forall i | 0 <= i <= |u| ensures !OccursAt(u, pat, i) {
        if i + |pat| <= |u| { assert u[i..i + |pat|][0] == UpperChar(p[i]); }
      }
    }
    NothingToStrip(u, "/*", "*/");
    NothingToStrip(u, "--", "\n");
    NothingToStrip(u, "#", "\n");
    FieldsAreWords(u);
    FieldsOfJoin(Fields(u));
  }

  lemma NoDefiner(a: string, g: string, u: string)
    requires |a| < 8 && |u| <= 8 && u != "DEFINER="
    requires g == "" ==> u == ""
    requires forall i :: 0 <= i < |g| ==> Space(g[i])
    ensures !Occurs(a + g + u, "DEFINER=")
  {
    var p := a + g + u;
    forall i | 0 <= i <= |p| ensures !OccursAt(p, "DEFINER=", i) {
      if i + 8 <= |p| {
        var at := p[i..i + 8];
        assert at[0] == p[i];
        if i < |a| {
          assert at[|a| - i] == p[|a|] == g[0];
        } else if i < |a + g| {
          assert p[i] == g[i - |a|];
        } else {
          assert at == u;
        }
      }
    }
  }

  /** The words of a beginning of an opening. */
  lemma WordsOf(a: string, g: string, u: string)
    requires Word(Upper(a)) && (forall i :: 0 <= i < |g| ==> Space(g[i])) && (u != "" ==> Word(Upper(u)) && g != "")
    requires var p := a + g + u; forall i :: 0 <= i < |p| ==> p[i] != '#' && (i < |p| - 1 ==> p[i] !in {'/', '-'})
    ensures Fields(Normalize(a + g + u)) == if u == "" then [Upper(a)] else [Upper(a), Upper(u)]
    ensures Upper(a + g + u) == Upper(a) + g + Upper(u)
  {
    hide Fields, Normalize, Word;
    NoComments(a + g + u);
    assert Upper(g) == g;
    assert Upper(a + g + u) == Upper(a) + g + Upper(u);
    if g == "" {
      OneField(Upper(a));
      assert Upper(a) + g + Upper(u) == Upper(a);
    } else {
      TwoFields(Upper(a), g, Upper(u));
    }
  }

  // ----- what the beginnings of an opening decide -----

  predicate Letters(w: string) { forall i :: 0 <= i < |w| ==> w[i] == '=' || 'A' <= w[i] <= 'Z' }

  lemma SpellsIff(p: string, w: string)
    requires Letters(w)
    ensures Spells(p, w) <==> Upper(p) == w
  {
    if Upper(p) == w {
      forall i | 0 <= i < |p| ensures p[i] == w[i] || ('A' <= w[i] <= 'Z' && p[i] as int == w[i] as int + 32) {
        assert Upper(p)[i] == UpperChar(p[i]);
      }
    }
  }

  lemma BeginsIff(p: string, w: string)
    requires Letters(w)
    ensures Begins(p, w) <==> StartsWith(w, Upper(p))
  {
    if |p| <= |w| {
      assert Letters(w[..|p|]);
      SpellsIff(p, w[..|p|]);
    }
  }

  lemma KeyWords()
    ensures Letters("USE") && Letters("CREATE") && Letters("DROP") && Letters("DATABASE") && Letters("DEFINER=")
  {
  }

  /** A text that spells letters is a word, without any comment. */
  lemma SpelledWord(p: string, w: string)
    requires p != "" && Letters(w) && Begins(p, w)
    ensures Word(Upper(p)) && forall i :: 0 <= i < |p| ==> p[i] !in {'#', '/', '-', ' ', '\t', '\r', '\n'}
  {
    forall i | 0 <= i < |p| ensures !Space(Upper(p)[i]) && p[i] !in {'#', '/', '-', ' ', '\t', '\r', '\n'} {
      assert w[..|p|][i] == w[i];
    }
  }

  /** A word that strays from spelled letters is still a word. */
  lemma StrayWord(w: string, x: string)
    requires w != "" && Plain(w[|w| - 1]) && Letters(x) && Begins(w[..|w| - 1], x)
    ensures Word(Upper(w)) && forall i :: 0 <= i < |w| ==> w[i] != '#' && (i < |w| - 1 ==> w[i] !in {'/', '-'})
  {
    var v := w[..|w| - 1];
    forall i | 0 <= i < |w| ensures !Space(Upper(w)[i]) && w[i] != '#' && (i < |w| - 1 ==> w[i] !in {'/', '-'}) {
      if i < |w| - 1 { assert v[i] == w[i] && x[..|v|][i] == x[i]; }
    }
  }

  ghost predicate NoBlank(p: string) { forall i :: 0 <= i < |p| ==> p[i] !in {' ', '\t', '\r', '\n'} }

  lemma OneWordDecides(p: string, w: string)
    requires Fields(Normalize(p)) == [w] && !Occurs(Upper(p), "DEFINER=")
    ensures Decision(p) ==
      if w == "USE" then SKIP
      else if w == "CREATE" || w == "DROP" then UNDECIDED
      else if NoBlank(p) && (StartsWith("USE", w) || StartsWith("CREATE", w) || StartsWith("DROP", w)) then UNDECIDED
      else KEEP
  {
    hide Occurs, Normalize, Fields, StartsWith;
    if !NoBlank(p) {
      var i :| 0 <= i < |p| && p[i] in {' ', '\t', '\r', '\n'};
      assert p[i] in p;
    }
  }

  lemma FirstWord(p: string, x: string)
    requires p != "" && x in ["USE", "CREATE", "DROP"] && Begins(p, x)
    ensures Decision(p) == if Spells(p, "USE") then SKIP else UNDECIDED
  {
    hide Decision, Occurs, Normalize, Fields, Spells, Begins, Word;
    KeyWords();
    SpelledWord(p, x);
    BeginsIff(p, x);
    SpellsIff(p, "USE");
    WordsOf(p, "", "");
    NoDefiner(Upper(p), "", "");
    assert p + "" + "" == p && Upper(p) + "" + "" == Upper(p);
    OneWordDecides(p, Upper(p));
  }

  lemma FirstStrays(w: string, x: string)
    requires w != "" && Plain(w[|w| - 1]) && x in ["USE", "CREATE", "DROP"] && Begins(w[..|w| - 1], x)
    requires !Begins(w, "USE") && !Begins(w, "CREATE") && !Begins(w, "DROP")
    ensures Decision(w) == KEEP
  {
    KeyWords();
    StrayWord(w, x);
    BeginsIff(w, "USE");
    BeginsIff(w, "CREATE");
    BeginsIff(w, "DROP");
    assert |w| < 8;
    hide Decision, Occurs, Normalize, Fields, Spells, Begins, Word, Plain, Letters;
    WordsOf(w, "", "");
    NoDefiner(Upper(w), "", "");
    assert w + "" + "" == w && Upper(w) + "" + "" == Upper(w);
    OneWordDecides(w, Upper(w));
    Whole("USE");
    Whole("CREATE");
    Whole("DROP");
  }

  lemma Whole(w: string)
    ensures StartsWith(w, w)
  {
  }

  lemma FirstEnds(w: string, g: string, x: string)
    requires w != "" && x in ["USE", "CREATE", "DROP"] && |w| < |x| && Begins(w, x) && g in {"\t", "\n", "\r", " "}
    ensures Decision(w + g) == KEEP
  {
    KeyWords();
    SpelledWord(w, x);
    BeginsIff(w, x);
    NotWhole(Upper(w), x);
    assert !NoBlank(w + g) by { assert (w + g)[|w|] == g[0]; }
    hide Decision, Occurs, Normalize, Fields, Spells, Begins, Word, NoBlank, Letters, StartsWith;
    WordsOf(w, g, "");
    NoDefiner(Upper(w), g, "");
    assert w + g + "" == w + g && Upper(w) + g + "" == Upper(w) + g;
    OneWordDecides(w + g, Upper(w));
  }

  lemma NotWhole(w: string, x: string)
    requires w != "" && x in ["USE", "CREATE", "DROP"] && |w| < |x| && StartsWith(x, w)
    ensures w !in ["USE", "CREATE", "DROP"]
  {
    assert w[0] == x[0];
  }

  lemma GapAfter(a: string, g: string)
    requires (Spells(a, "CREATE") || Spells(a, "DROP")) && Gap(g)
    ensures Decision(a + g) == UNDECIDED
  {
    KeyWords();
    SpellsIff(a, "CREATE");
    SpellsIff(a, "DROP");
    SpelledWord(a, if Spells(a, "CREATE") then "CREATE" else "DROP");
    WordsOf(a, g, "");
    NoDefiner(Upper(a), g, "");
    hide Occurs, Normalize, Fields, Spells, Begins, Word;
    assert a + g + "" == a + g && Upper(a) + g + "" == Upper(a) + g;
  }

  lemma TwoWordsDecide(p: string, a: string, u: string)
    requires Fields(Normalize(p)) == [a, u] && a in ["CREATE", "DROP"]
    requires Occurs(Upper(p), "DEFINER=") <==> u == "DEFINER="
    requires u == "DEFINER=" ==> a == "CREATE"
    requires |u| <= 8
    ensures Decision(p) ==
      if u == "DATABASE" || u == "DEFINER=" then SKIP
      else if StartsWith("DATABASE", u) || (a == "CREATE" && StartsWith("DEFINER=", u)) then UNDECIDED
      else KEEP
  {
    hide Occurs, Normalize, Fields;
  }

  /** The second word as far as it spells one of the words x, or strays from them. */
  lemma SecondWord(a: string, g: string, u: string, x: string)
    requires (Spells(a, "CREATE") && x in ["DATABASE", "DEFINER="]) || (Spells(a, "DROP") && x == "DATABASE")
    requires Gap(g) && u != ""
    requires Begins(u, x) || (Plain(u[|u| - 1]) && |u| <= |x| && Begins(u[..|u| - 1], x))
    ensures Decision(a + g + u) ==
      if Spells(u, "DATABASE") || (Spells(a, "CREATE") && Spells(u, "DEFINER=")) then SKIP
      else if Begins(u, "DATABASE") || (Spells(a, "CREATE") && Begins(u, "DEFINER=")) then UNDECIDED
      else KEEP
  {
    hide Decision;
    KeyWords();
    SpellsIff(a, "CREATE");
    SpellsIff(a, "DROP");
    SpelledWord(a, if Spells(a, "CREATE") then "CREATE" else "DROP");
    if Begins(u, x) { SpelledWord(u, x); } else { StrayWord(u, x); }
    GapText(a, g, u);
    WordsOf(a, g, u);
    BeginsIff(u, "DATABASE");
    BeginsIff(u, "DEFINER=");
    SpellsIff(u, "DATABASE");
    SpellsIff(u, "DEFINER=");
    if Upper(u) == "DEFINER=" { BeginsFirst(u, x); }
    hide Spells, Begins, Plain, Letters, Word, Gap;
    if Upper(u) != "DEFINER=" { NoDefiner(Upper(a), g, Upper(u)); }
    else { DefinerThere(Upper(a) + g, Upper(u)); }
    hide Occurs, Normalize, Fields;
    TwoWordsDecide(a + g + u, Upper(a), Upper(u));
  }

  /** Of the two second words only one begins with DE. */
  lemma BeginsFirst(u: string, x: string)
    requires Upper(u) == "DEFINER="
    requires x in ["DATABASE", "DEFINER="] && (Begins(u, x) || Begins(u[..|u| - 1], x))
    ensures x == "DEFINER="
  {
    assert Upper(u)[1] == UpperChar(u[1]);
    assert x[..7][1] == x[1] && u[..7][1] == u[1];
  }

  lemma GapText(a: string, g: string, u: string)
    requires Gap(g) && u != ""
    requires forall i :: 0 <= i < |a| ==> a[i] !in {'#', '/', '-'}
    requires forall i :: 0 <= i < |u| ==> u[i] != '#' && (i < |u| - 1 ==> u[i] !in {'/', '-'})
    ensures forall i :: 0 <= i < |g| ==> Space(g[i])
    ensures var p := a + g + u; forall i :: 0 <= i < |p| ==> p[i] != '#' && (i < |p| - 1 ==> p[i] !in {'/', '-'})
  {
  }

  lemma DefinerThere(t: string, u: string)
    requires u == "DEFINER="
    ensures Occurs(t + u, "DEFINER=")
  {
    assert OccursAt(t + u, "DEFINER=", |t|);
  }

  // ----- what an opening settles -----

  /** No beginning of the opening short of the whole decides anything. */
  ghost predicate OpenUntilLast(o: Opening) {
    forall n: nat :: 0 < n < |o.Text()| ==> Decision(o.Text()[..n]) == UNDECIDED
  }

  lemma BeginsShorter(p: string, n: nat, w: string)
    requires Begins(p, w) && n <= |p|
    ensures Begins(p[..n], w)
  {
    forall i | 0 <= i < n
      ensures p[..n][i] == w[..n][i] || ('A' <= w[..n][i] <= 'Z' && p[..n][i] as int == w[..n][i] as int + 32)
    {
      assert p[i] == w[..|p|][i] || ('A' <= w[..|p|][i] <= 'Z' && p[i] as int == w[..|p|][i] as int + 32);
    }
  }

  lemma SpellsBegins(p: string, w: string)
    ensures Spells(p, w) <==> Begins(p, w) && |p| == |w|
  {
    assert w[..|w|] == w;
  }

  /** The beginnings of a first word. */
  lemma FirstOpen(v: string, x: string, n: nat)
    requires x in ["USE", "CREATE", "DROP"] && Begins(v, x) && 0 < n <= |v| && (n < |x| || x != "USE")
    ensures Decision(v[..n]) == UNDECIDED
  {
    BeginsShorter(v, n, x);
    FirstWord(v[..n], x);
    SpellsBegins(v[..n], "USE");
    hide Decision;
    NotUse(v[..n], x);
  }

  lemma NotUse(p: string, x: string)
    requires x in ["USE", "CREATE", "DROP"] && p != "" && Begins(p, x) && (|p| < |x| || x != "USE")
    ensures !Spells(p, "USE")
  {
    assert x[..|p|][0] == x[0];
  }

  /** The beginnings of an opening of two words. */
  lemma SecondOpen(o: Opening, x: string, n: nat)
    requires
      (Spells(o.first, "CREATE") && x in ["DATABASE", "DEFINER="]) || (Spells(o.first, "DROP") && x == "DATABASE")
    requires Gap(o.gap) && o.second != "" && |o.second| <= |x| && Begins(o.second[..|o.second| - 1], x)
    requires 0 < n < |o.Text()|
    ensures Decision(o.Text()[..n]) == UNDECIDED
  {
    hide Decision;
    var k := if Spells(o.first, "CREATE") then "CREATE" else "DROP";
    SpellsBegins(o.first, k);
    var t := o.Text();
    var m := |o.first| + |o.gap|;
    if n <= |o.first| {
      assert t[..n] == o.first[..n];
      FirstOpen(o.first, k, n);
    } else if n <= m {
      var g := o.gap[..n - |o.first|];
      assert t[..n] == o.first + g;
      assert Gap(g);
      GapAfter(o.first, g);
    } else {
      var u := o.second[..n - m];
      assert t[..n] == o.first + o.gap + u;
      BeginsShorter(o.second[..|o.second| - 1], n - m, x);
      assert o.second[..|o.second| - 1][..n - m] == u;
      SecondWord(o.first, o.gap, u, x);
      SpellsBegins(u, "DATABASE");
      SpellsBegins(u, "DEFINER=");
    }
  }

  /** Bytes an opening is made of: none ends a statement or opens a quotation. */
  ghost predicate Quiet(t: string) { forall i :: 0 <= i < |t| ==> t[i] !in {';', '\'', '"', '`'} }

  lemma SpelledQuiet(p: string, w: string)
    requires Letters(w) && Begins(p, w)
    ensures Quiet(p) && (forall i :: 0 <= i < |p| ==> p[i] as int < 0x80) && (p != "" ==> !Blank(p[0]))
  {
    forall i | 0 <= i < |p| ensures p[i] !in {';', '\'', '"', '`'} && p[i] as int < 0x80 && !Blank(p[i]) {
      assert w[..|p|][i] == w[i];
    }
  }

  lemma {:induction false} AsciiWeight(p: string)
    requires forall i :: 0 <= i < |p| ==> p[i] as int < 0x80
    ensures Weight(p) == |p|
  {
    if p != "" { AsciiWeight(p[..|p| - 1]); }
  }

  /** What an opening settles, and where. */
  ghost predicate SettledBy(o: Opening, skip: bool) {
    var t := o.Text();
    && t != "" && !Blank(t[0]) && Quiet(t) && OpenUntilLast(o)
    && (skip ==> Decision(t) == SKIP && forall i :: 0 <= i < |t| ==> t[i] as int < 0x80)
    && (skip ==> |t| <= 256)
    && (!skip ==> Decision(t) == KEEP || |t| > 256)
  }

  lemma GapQuiet(g: string)
    requires Gap(g)
    ensures Quiet(g) && forall i :: 0 <= i < |g| ==> g[i] as int < 0x80
  {
  }

  lemma QuietText(o: Opening)
    requires Quiet(o.first) && Quiet(o.gap) && Quiet(o.second)
    ensures Quiet(o.Text()) && (o.first != "" ==> o.Text()[0] == o.first[0])
  {
  }

  lemma TwoWordsSettle(o: Opening)
    requires TwoWords(o)
    ensures SettledBy(o, |o.Text()| <= 256)
  {
    hide Decision, Spells, Begins, Letters;
    KeyWords();
    var k := if Spells(o.first, "CREATE") then "CREATE" else "DROP";
    var x := if Spells(o.second, "DATABASE") then "DATABASE" else "DEFINER=";
    SpellsBegins(o.first, k);
    SpellsBegins(o.second, x);
    SpelledQuiet(o.first, k);
    SpelledQuiet(o.second, x);
    GapQuiet(o.gap);
    SecondWord(o.first, o.gap, o.second, x);
    BeginsShorter(o.second, |o.second| - 1, x);
    forall n: nat | 0 < n < |o.Text()| ensures Decision(o.Text()[..n]) == UNDECIDED { SecondOpen(o, x, n); }
    hide Gap, Quiet, TwoWords;
    QuietText(o);
    assert forall i :: 0 <= i < |o.Text()| ==> o.Text()[i] as int < 0x80;
  }

  lemma ForbiddenSettles(o: Opening)
    requires Forbidden(o)
    ensures SettledBy(o, true)
  {
    hide Decision;
    if TwoWords(o) {
      TwoWordsSettle(o);
    } else {
      KeyWords();
      SpellsBegins(o.first, "USE");
      SpelledQuiet(o.first, "USE");
      FirstWord(o.first, "USE");
      assert o.Text() == o.first;
      forall n: nat | 0 < n < |o.first| ensures Decision(o.first[..n]) == UNDECIDED { FirstOpen(o.first, "USE", n); }
    }
  }

  lemma StrayQuiet(w: string, x: string)
    requires w != "" && Plain(w[|w| - 1]) && Letters(x) && Begins(w[..|w| - 1], x)
    ensures Quiet(w) && !Blank(w[0])
  {
    SpelledQuiet(w[..|w| - 1], x);
    assert forall i :: 0 <= i < |w| - 1 ==> w[i] == w[..|w| - 1][i];
  }

  /** One word that strays, or is longer. */
  lemma FirstStraysSettles(o: Opening, x: string)
    requires o.gap == "" && o.second == "" && o.first != "" && Plain(o.first[|o.first| - 1])
    requires x in ["USE", "CREATE", "DROP"] && Begins(o.first[..|o.first| - 1], x)
    requires |o.first| <= |x| || x != "USE"
    requires !Begins(o.first, "USE") && !Begins(o.first, "CREATE") && !Begins(o.first, "DROP")
    ensures SettledBy(o, false)
  {
    hide Decision, Begins, Spells, Plain, Letters, Quiet;
    KeyWords();
    var v := o.first[..|o.first| - 1];
    FirstStrays(o.first, x);
    StrayQuiet(o.first, x);
    assert o.Text() == o.first;
    forall n: nat | 0 < n < |o.first| ensures Decision(o.first[..n]) == UNDECIDED {
      FirstOpen(v, x, n);
      assert v[..n] == o.first[..n];
    }
  }

  lemma FirstEndsSettles(o: Opening, x: string)
    requires o.gap in {"\t", "\n", "\r", " "} && o.second == "" && o.first != ""
    requires x in ["USE", "CREATE", "DROP"] && |o.first| < |x| && Begins(o.first, x)
    ensures SettledBy(o, false)
  {
    hide Decision, Begins, Spells, Letters, Quiet;
    KeyWords();
    FirstEnds(o.first, o.gap, x);
    SpelledQuiet(o.first, x);
    BlankQuiet(o.gap);
    QuietText(o);
    assert o.Text() == o.first + o.gap;
    forall n: nat | 0 < n < |o.Text()| ensures Decision(o.Text()[..n]) == UNDECIDED {
      FirstOpen(o.first, x, n);
      assert o.Text()[..n] == o.first[..n];
    }
  }

  lemma BlankQuiet(g: string)
    requires g in {"\t", "\n", "\r", " "}
    ensures Quiet(g) && Quiet("")
  {
  }

  lemma SecondStraysSettles(o: Opening, x: string)
    requires
      (Spells(o.first, "CREATE") && x in ["DATABASE", "DEFINER="]) || (Spells(o.first, "DROP") && x == "DATABASE")
    requires Gap(o.gap) && o.second != "" && Plain(o.second[|o.second| - 1])
    requires |o.second| <= |x| && Begins(o.second[..|o.second| - 1], x)
    requires !Begins(o.second, "DATABASE") && (Spells(o.first, "CREATE") ==> !Begins(o.second, "DEFINER="))
    ensures SettledBy(o, false)
  {
    hide Decision, Spells, Begins, Plain, Letters;
    KeyWords();
    var k := if Spells(o.first, "CREATE") then "CREATE" else "DROP";
    SpellsBegins(o.first, k);
    SpelledQuiet(o.first, k);
    StrayQuiet(o.second, x);
    SecondWord(o.first, o.gap, o.second, x);
    SpellsBegins(o.second, "DATABASE");
    SpellsBegins(o.second, "DEFINER=");
    GapQuiet(o.gap);
    hide Gap, Quiet;
    forall n: nat | 0 < n < |o.Text()| ensures Decision(o.Text()[..n]) == UNDECIDED { SecondOpen(o, x, n); }
    QuietText(o);
  }

  /** A longer word does not begin a shorter one; nor does it begin the other keywords. */
  lemma LongerStrays(w: string, k: string)
    requires w != "" && k in ["CREATE", "DROP"] && Spells(w[..|w| - 1], k)
    ensures !Begins(w, "USE") && !Begins(w, "CREATE") && !Begins(w, "DROP") && Begins(w[..|w| - 1], k)
  {
    SpellsBegins(w[..|w| - 1], k);
    assert w[..|w| - 1][0] == w[0];
    forall x ensures x in ["USE", "CREATE", "DROP"] && |w| <= |x| ==> x[..|w|][0] == x[0] {}
  }

  lemma HarmlessSettles(o: Opening)
    requires Harmless(o)
    ensures SettledBy(o, false)
  {
    hide Decision, SettledBy, Spells, Begins, Plain;
    var ks := ["USE", "CREATE", "DROP"];
    if o.gap == "" && o.second == "" && Strays(o.first, ks) {
      var x :| x in ks && |o.first| <= |x| && Begins(o.first[..|o.first| - 1], x);
      assert "USE" in ks && "CREATE" in ks && "DROP" in ks;
      FirstStraysSettles(o, x);
    } else if o.gap == "" && o.second == "" {
      var k := if Spells(o.first[..|o.first| - 1], "CREATE") then "CREATE" else "DROP";
      LongerStrays(o.first, k);
      FirstStraysSettles(o, k);
    } else if o.gap in {"\t", "\n", "\r", " "} && o.second == "" && o.first != ""
              && exists x :: x in ks && |o.first| < |x| && Begins(o.first, x) {
      var x :| x in ks && |o.first| < |x| && Begins(o.first, x);
      FirstEndsSettles(o, x);
    } else if Spells(o.first, "CREATE") && Strays(o.second, ["DATABASE", "DEFINER="]) {
      var x :| x in ["DATABASE", "DEFINER="] && |o.second| <= |x| && Begins(o.second[..|o.second| - 1], x);
      assert "DATABASE" in ["DATABASE", "DEFINER="] && "DEFINER=" in ["DATABASE", "DEFINER="];
      SecondStraysSettles(o, x);
    } else if Spells(o.first, "DROP") && Strays(o.second, ["DATABASE"]) {
      SpellsBegins(o.first, "CREATE");
      SpellsBegins(o.first, "DROP");
      var x :| x in ["DATABASE"] && |o.second| <= |x| && Begins(o.second[..|o.second| - 1], x);
      assert "DATABASE" in ["DATABASE"];
      SecondStraysSettles(o, x);
    } else {
      TwoWordsSettle(o);
    }
  }

  // ----- where a statement ends -----

  /** A piece of a statement: a byte, or a quotation. */
  datatype Token = Byte(b: char) | Quotation(mark: char, parts: seq<string>) {
    function Text(): string {
      match this
      case Byte(b) => [b]
      case Quotation(mark, parts) => [mark] + Concat(parts) + [mark]
    }
  }

  /** One byte of a quotation, or a backslash with the byte it escapes; between backticks nothing is escaped. */
  ghost predicate Part(mark: char, part: string) {
    || (|part| == 1 && part[0] != mark && (mark == '`' || part[0] != '\\'))
    || (|part| == 2 && part[0] == '\\' && mark != '`')
  }

  ghost predicate Closed(t: Token) {
    match t
    case Byte(b) => b !in {';', '\'', '"', '`'}
    case Quotation(mark, parts) => mark in {'\'', '"', '`'} && forall i :: 0 <= i < |parts| ==> Part(mark, parts[i])
  }

  ghost predicate AllClosed(ts: seq<Token>) { forall i :: 0 <= i < |ts| ==> Closed(ts[i]) }

  function Texts(ts: seq<Token>): string {
    if ts == [] then "" else Texts(ts[..|ts| - 1]) + ts[|ts| - 1].Text()
  }

  function Inside(mark: char): Quote
    requires mark in {'\'', '"', '`'}
  {
    if mark == '\'' then InSingle(false) else if mark == '"' then InDouble(false) else InBacktick
  }

  ghost predicate ReadsAt(s: string, k: nat, t: string) { k + |t| <= |s| && s[k..k + |t|] == t }

  lemma ReadsBoth(s: string, k: nat, t: string, u: string)
    requires ReadsAt(s, k, t + u)
    ensures ReadsAt(s, k, t) && ReadsAt(s, k + |t|, u)
  {
    assert (t + u)[..|t|] == t && (t + u)[|t|..] == u;
    assert s[k..k + |t + u|][..|t|] == s[k..k + |t|];
    assert s[k..k + |t + u|][|t|..] == s[k + |t|..k + |t| + |u|];
  }

  lemma PartOver(s: string, k: nat, mark: char, part: string)
    requires mark in {'\'', '"', '`'} && Part(mark, part) && ReadsAt(s, k, part)
    ensures EndFrom(s, k, Inside(mark)) == EndFrom(s, k + |part|, Inside(mark))
  {
    assert s[k] == part[0];
    EndStep(s, k, Inside(mark));
    if |part| == 2 { EndStep(s, k + 1, Quoted(Inside(mark), s[k])); }
    hide EndFrom;
  }

  lemma {:induction false} PartsOver(s: string, k: nat, mark: char, parts: seq<string>)
    requires mark in {'\'', '"', '`'} && (forall i :: 0 <= i < |parts| ==> Part(mark, parts[i]))
    requires ReadsAt(s, k, Concat(parts))
    ensures EndFrom(s, k, Inside(mark)) == EndFrom(s, k + |Concat(parts)|, Inside(mark))
  {
    hide EndFrom, Part, ReadsAt;
    if parts != [] {
      var n := |parts| - 1;
      ReadsBoth(s, k, Concat(parts[..n]), parts[n]);
      PartsOver(s, k, mark, parts[..n]);
      PartOver(s, k + |Concat(parts[..n])|, mark, parts[n]);
    }
  }

  lemma ByteOver(s: string, k: nat, q: Quote, b: char)
    requires ReadsAt(s, k, [b]) && !(q == Outside && b == ';')
    ensures EndFrom(s, k, q) == EndFrom(s, k + 1, Quoted(q, b))
  {
    assert s[k] == [b][0];
    EndStep(s, k, q);
  }

  lemma TokenOver(s: string, k: nat, t: Token)
    requires Closed(t) && ReadsAt(s, k, t.Text())
    ensures EndFrom(s, k, Outside) == EndFrom(s, k + |t.Text()|, Outside)
  {
    hide EndFrom, ReadsAt, Part;
    match t {
      case Byte(b) => ByteOver(s, k, Outside, b);
      case Quotation(mark, parts) => QuotationOver(s, k, mark, parts, Concat(parts));
    }
  }

  lemma QuotationOver(s: string, k: nat, mark: char, parts: seq<string>, inside: string)
    requires mark in {'\'', '"', '`'} && (forall i :: 0 <= i < |parts| ==> Part(mark, parts[i]))
    requires inside == Concat(parts)
    requires ReadsAt(s, k, [mark] + inside + [mark])
    ensures EndFrom(s, k, Outside) == EndFrom(s, k + |inside| + 2, Outside)
  {
    hide EndFrom, ReadsAt, Part, Concat, Quoted, Inside;
    ReadsBoth(s, k, [mark] + inside, [mark]);
    ReadsBoth(s, k, [mark], inside);
    OpensQuotation(s, k, mark);
    PartsOver(s, k + 1, mark, parts);
    ClosesQuotation(s, k + 1 + |inside|, mark);
  }

  lemma ClosesQuotation(s: string, k: nat, mark: char)
    requires mark in {'\'', '"', '`'} && ReadsAt(s, k, [mark])
    ensures EndFrom(s, k, Inside(mark)) == EndFrom(s, k + 1, Outside)
  {
    ByteOver(s, k, Inside(mark), mark);
  }

  lemma OpensQuotation(s: string, k: nat, mark: char)
    requires mark in {'\'', '"', '`'} && ReadsAt(s, k, [mark])
    ensures EndFrom(s, k, Outside) == EndFrom(s, k + 1, Inside(mark))
  {
    ByteOver(s, k, Outside, mark);
  }

  lemma {:induction false} TokensOver(s: string, k: nat, ts: seq<Token>)
    requires AllClosed(ts) && ReadsAt(s, k, Texts(ts))
    ensures EndFrom(s, k, Outside) == EndFrom(s, k + |Texts(ts)|, Outside)
  {
    hide EndFrom, ReadsAt, Closed, Token.Text;
    if ts != [] {
      var n := |ts| - 1;
      var init, last := ts[..n], ts[n];
      assert Texts(ts) == Texts(init) + last.Text();
      hide Texts;
      ReadsBoth(s, k, Texts(init), last.Text());
      TokensOver(s, k, init);
      TokenOver(s, k + |Texts(init)|, last);
    }
  }

  lemma {:induction false} QuietOver(s: string, k: nat, n: nat)
    requires k <= n <= |s| && Quiet(s[k..n])
    ensures EndFrom(s, k, Outside) == EndFrom(s, n, Outside)
    decreases n - k
  {
    if k < n {
      assert s[k..n][0] == s[k] && s[k..n][1..] == s[k + 1..n];
      EndStep(s, k, Outside);
      hide EndFrom;
      QuietOver(s, k + 1, n);
    }
  }

  // ----- a statement of the input -----

  lemma OpeningAt(s: string, i: nat, t: string, n: nat)
    requires ReadsAt(s, i, t) && n <= |t|
    ensures s[i..i + n] == t[..n] && (n < |t| ==> s[i + n] == t[n])
  {
    assert s[i..i + |t|][..n] == s[i..i + n];
    assert n < |t| ==> s[i..i + |t|][n] == s[i + n];
  }

  lemma NotSettledYet(o: Opening, n: nat)
    requires SettledBy(o, true) && 0 < n < |o.Text()|
    ensures !Settles(Decision, o.Text()[..n])
  {
    hide Decision, Quiet;
    AsciiWeight(o.Text()[..n]);
  }

  lemma UnsettledUntil(s: string, i: nat, o: Opening, pos: nat)
    requires SettledBy(o, true) && ReadsAt(s, i, o.Text()) && i <= pos < i + |o.Text()|
    ensures Unsettled(Decision, s, i, i, pos)
  {
    hide Decision, SettledBy, Settles, Opening.Text;
    forall j: nat | i < j <= pos ensures !Settles(Decision, s[i..j]) {
      OpeningAt(s, i, o.Text(), j - i);
      NotSettledYet(o, j - i);
    }
  }

  lemma Slice(s: string, i: nat, t: string)
    requires ReadsAt(s, i, t)
    ensures s[i..i + |t|] == t
  {
  }

  lemma SettlesWhole(o: Opening)
    requires SettledBy(o, true)
    ensures var t := o.Text(); |t| > 0 && Settles(Decision, t) && Drops(Decision, t) && t[|t| - 1] != ';'
  {
    hide Decision, OpenUntilLast;
  }

  /** A statement whose opening settles that it is dropped. */
  lemma DropsAt(s: string, i: nat, o: Opening)
    requires SettledBy(o, true) && ReadsAt(s, i, o.Text())
    ensures Statement(Decision, s, i) == (EndFrom(s, i + |o.Text()|, Outside), true)
  {
    hide Decision, EndFrom, Opening.Text, Settles, Drops, Unsettled, SettledBy, Statement;
    var t := o.Text();
    SettlesWhole(o);
    var pos := i + |t| - 1;
    OpeningAt(s, i, t, |t| - 1);
    Slice(s, i, t);
    UnsettledUntil(s, i, o, pos);
    hide ReadsAt;
    StatementHere(Decision, s, i, pos);
  }

  lemma QuietRest(t: string, n: nat)
    requires Quiet(t) && n <= |t|
    ensures Quiet(t[n..])
  {
  }

  /** A statement whose opening settles that it is kept. */
  lemma KeepsAt(s: string, i: nat, o: Opening)
    requires SettledBy(o, false) && ReadsAt(s, i, o.Text())
    ensures Statement(Decision, s, i) == (EndFrom(s, i + |o.Text()|, Outside), false)
  {
    hide Decision, EndFrom;
    var t := o.Text();
    var m := if |t| > 256 then 256 else |t|;
    OpeningAt(s, i, t, m);
    assert t[..|t|] == t;
    assert Settles(Decision, s[i..i + m]) by { WeightAtLeast(t[..m]); }
    var k := SettledFrom(Decision, s, i, i);
    assert k <= i + m;
    OpeningAt(s, i, t, k - i);
    assert !Drops(Decision, s[i..k]);
    OpeningAt(s, i, t, |t|);
    assert s[k..i + |t|] == s[i..i + |t|][k - i..];
    QuietRest(t, k - i);
    QuietOver(s, k, i + |t|);
  }

  /** A part of the input: a byte between statements, or a statement that ends in a semicolon. */
  datatype Piece = White(b: char) | Sql(opening: Opening, body: seq<Token>) {
    function Text(): string {
      match this
      case White(b) => [b]
      case Sql(o, body) => o.Text() + Texts(body) + ";"
    }

    ghost predicate Clear() {
      match this
      case White(b) => b in {'\r', '\n', '\t', ' '}
      case Sql(o, body) => (Forbidden(o) || Harmless(o)) && AllClosed(body)
    }

    /** What a restore writes of it. */
    ghost function Kept(): string { if Sql? && Forbidden(opening) then "" else Text() }
  }

  ghost predicate AllClear(ps: seq<Piece>) { forall i :: 0 <= i < |ps| ==> ps[i].Clear() }

  function Input(ps: seq<Piece>): string {
    if ps == [] then "" else Input(ps[..|ps| - 1]) + ps[|ps| - 1].Text()
  }

  ghost function Written(ps: seq<Piece>): string {
    if ps == [] then "" else Written(ps[..|ps| - 1]) + ps[|ps| - 1].Kept()
  }

  lemma SemicolonEnds(s: string, k: nat)
    requires ReadsAt(s, k, ";")
    ensures EndFrom(s, k, Outside) == k + 1
  {
    assert s[k] == ";"[0];
    EndStep(s, k, Outside);
  }

  /** No opening is both. */
  lemma Apart(o: Opening)
    ensures !(Forbidden(o) && Harmless(o))
  {
    hide Forbidden, Harmless, Decision;
    if Forbidden(o) && Harmless(o) {
      ForbiddenSettles(o);
      HarmlessSettles(o);
      assert false;
    }
  }

  /** A statement that begins with such an opening. */
  lemma OpeningSettles(s: string, i: nat, o: Opening)
    requires (Forbidden(o) || Harmless(o)) && ReadsAt(s, i, o.Text())
    ensures i < |s| && !Blank(s[i])
    ensures Statement(Decision, s, i) == (EndFrom(s, i + |o.Text()|, Outside), Forbidden(o))
  {
    hide Forbidden, Harmless, Decision, EndFrom, Statement, OpenUntilLast, Quiet, Blank;
    var drops := Forbidden(o);
    if drops { ForbiddenSettles(o); } else { HarmlessSettles(o); }
    OpeningAt(s, i, o.Text(), 0);
    if drops { DropsAt(s, i, o); } else { KeepsAt(s, i, o); }
  }

  lemma StatementAt(s: string, i: nat, o: Opening, body: seq<Token>)
    requires (Forbidden(o) || Harmless(o)) && AllClosed(body) && ReadsAt(s, i, o.Text() + Texts(body) + ";")
    ensures i < |s| && !Blank(s[i])
    ensures Statement(Decision, s, i) == (i + |o.Text() + Texts(body) + ";"|, Forbidden(o))
  {
    hide Forbidden, Harmless, Decision, EndFrom, Statement, ReadsAt, Blank, AllClosed, Opening.Text, Texts;
    var t, b := o.Text(), Texts(body);
    ReadsBoth(s, i, t + b, ";");
    ReadsBoth(s, i, t, b);
    OpeningSettles(s, i, o);
    TokensOver(s, i + |t|, body);
    SemicolonEnds(s, i + |t + b|);
  }

  lemma WhiteAt(s: string, i: nat, b: char)
    requires b in {'\r', '\n', '\t', ' '} && ReadsAt(s, i, [b])
    ensures Filtered(Decision, s, i) == [b] + Filtered(Decision, s, i + 1)
  {
    hide Statement, Decision;
    OpeningAt(s, i, [b], 0);
  }

  lemma PieceAt(s: string, i: nat, p: Piece)
    requires p.Clear() && ReadsAt(s, i, p.Text())
    ensures Filtered(Decision, s, i) == p.Kept() + Filtered(Decision, s, i + |p.Text()|)
  {
    hide Statement, Forbidden, Harmless, Decision, Texts, AllClosed, Filtered, ReadsAt, Opening.Text, Blank;
    match p {
      case White(b) => WhiteAt(s, i, b);
      case Sql(o, body) =>
        StatementAt(s, i, o, body);
        FilteredStatement(Decision, s, i);
        Slice(s, i, p.Text());
    }
  }

  /** Of any statements within a longer input, whatever follows, exactly those are written that do not begin with
      what is forbidden, and they are written unchanged. */
  lemma {:induction false} PiecesAt(s: string, i: nat, ps: seq<Piece>)
    requires AllClear(ps) && ReadsAt(s, i, Input(ps))
    ensures Filtered(Decision, s, i) == Written(ps) + Filtered(Decision, s, i + |Input(ps)|)
  {
    hide Filtered, Decision, Piece.Clear, Piece.Kept, Piece.Text;
    if ps != [] {
      var init, last := ps[..|ps| - 1], ps[|ps| - 1];
      assert Input(ps) == Input(init) + last.Text() && Written(ps) == Written(init) + last.Kept();
      assert AllClear(init) && last.Clear();
      hide Input, Written, AllClear, ReadsAt;
      ReadsBoth(s, i, Input(init), last.Text());
      PiecesAt(s, i, init);
      PieceAt(s, i + |Input(init)|, last);
    }
  }

  /** An input that is one statement, with a semicolon at its end only. */
  lemma OneStatement(o: Opening, body: string)
    requires (Forbidden(o) || Harmless(o)) && ';' !in body
    ensures var s := o.Text() + body + ";"; Filtered(Decision, s, 0) == if Forbidden(o) then "" else s
  {
    hide Decision, Statement, Forbidden, Harmless, Opening.Text;
    var s, n := o.Text() + body + ";", |o.Text()|;
    assert ReadsAt(s, 0, o.Text());
    OpeningSettles(s, 0, o);
    var e := EndFrom(s, n, Outside);
    forall x | n <= x < |s| - 1 ensures s[x] == body[x - n] {}
    assert e == |s|;
    hide EndFrom;
    FilteredStatement(Decision, s, 0);
  }

  ghost predicate ConsistsOf(s: string, ps: seq<Piece>, tail: string) { s == Input(ps) + tail }

  lemma PiecesOut(s: string, ps: seq<Piece>, tail: string)
    requires AllClear(ps) && ConsistsOf(s, ps, tail)
    ensures var f := Filtered(Decision, s, 0); Written(ps) <= f && (tail == "" ==> f == Written(ps))
  {
    hide Decision, Written, Input, AllClear, Statement;
    var n := |Input(ps)|;
    assert s[0..n] == Input(ps);
    PiecesAt(s, 0, ps);
    if tail == "" { assert n == |s| && Filtered(Decision, s, n) == ""; }
  }

  ghost predicate IsStatement(s: string, o: Opening, body: string) { s == o.Text() + body + ";" && ';' !in body }

  /** The filter with the decision of the panel. */
  method WriteSanitizedRestoreSQL(chunks: seq<string>, readOk: bool, room: Option<nat>, ghost rest: string)
    returns (ok: bool, out: string)
    ensures ok <==> readOk && Fits(room, |Filtered(Decision, Concat(chunks), 0)|)
    ensures readOk ==> out == Taken(room, Filtered(Decision, Concat(chunks), 0))
    ensures !readOk ==> out <= Filtered(Decision, Concat(chunks) + rest, 0)
    ensures
      !readOk && rest == "" ==> |out| + MAX_PREFIX > |Filtered(Decision, Concat(chunks), 0)| || room == Some(|out|)
    ensures ok ==> forall ps, tail :: AllClear(ps) && ConsistsOf(Concat(chunks), ps, tail) ==>
      Written(ps) <= out && (tail == "" ==> out == Written(ps))
    ensures ok ==> forall o, body :: IsStatement(Concat(chunks), o, body) ==>
      (Forbidden(o) ==> out == "") && (Harmless(o) ==> out == Concat(chunks))
  {
    hide Filtered, AllClear, Forbidden, Harmless;
    ok, out := Sanitize(Decision, chunks, readOk, room, rest);
    var s := Concat(chunks);
    forall ps, tail | ok && AllClear(ps) && ConsistsOf(s, ps, tail)
      ensures Written(ps) <= out && (tail == "" ==> out == Written(ps))
    {
      PiecesOut(s, ps, tail);
    }
    forall o, body | ok && IsStatement(s, o, body)
      ensures (Forbidden(o) ==> out == "") && (Harmless(o) ==> out == s)
    {
      Apart(o);
      if Forbidden(o) || Harmless(o) { OneStatement(o, body); }
    }
  }
}
