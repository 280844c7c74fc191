/**
 The file of banned addresses that Nginx reads, as the list of its lines: writing it
 from a set, reading it back, and adding or removing one address through it.
 */
module NginxBans {
  import opened Common
  import opened Paths
  import opened SqlPrefix

  /** Which strings are addresses or networks is a parameter; all that matters here is that
      they consist of hexadecimal digits, dots, colons and slashes. */
  type Validity = string -> bool

  predicate AddressChar(c: char) { '0' <= c <= '9' || 'a' <= c <= 'f' || 'A' <= c <= 'F' || c in {'.', ':', '/'} }

  ghost predicate Addresses(valid: Validity) {
    forall s :: valid(s) ==> s != "" && forall i :: 0 <= i < |s| ==> AddressChar(s[i])
  }

  // ----- one line -----

  function TrimLeft(s: string): string {
    if s == "" || !Space(s[0]) then s else TrimLeft(s[1..])
  }

  function TrimEnd(s: string): string {
    if s == "" || !Space(s[|s| - 1]) then s else TrimEnd(s[..|s| - 1])
  }

  function TrimSemicolons(s: string): string {
    if s == "" || s[|s| - 1] != ';' then s else TrimSemicolons(s[..|s| - 1])
  }

  /** The address a line bans, if any. */
  function Parse(line: string, valid: Validity): Option<string> {
    var t := TrimEnd(TrimLeft(line));
    if t == "" || StartsWith(t, "#") || StartsWith(t, "geo ") || t == "}" then None
    else
      var words := Fields(TrimSemicolons(t));
      if |words| < 2 || words[1] != "1" || !valid(words[0]) then None else Some(words[0])
  }

  /** A line that gives a word a value. */
  function Assign(word: string, value: string): string { "    " + (word + (" " + value) + ";") }

  function BanLine(ip: string): string { Assign(ip, "1") }

  const HEAD: seq<string> :=
    ["#" + " YUB WPanel Generated - DO NOT EDIT MANUALLY", "geo " + "$yubwpanel_banned_ip {", Assign("default", "0")]

  const TAIL: seq<string> := ["}", ""]

  lemma {:induction false} TrimLeftSolid(pad: string, s: string)
    requires s != "" && !Space(s[0]) && forall i :: 0 <= i < |pad| ==> Space(pad[i])
    ensures TrimLeft(pad + s) == s
  {
    if pad == "" {
      assert pad + s == s;
    } else {
      assert (pad + s)[1..] == pad[1..] + s;
      TrimLeftSolid(pad[1..], s);
    }
  }

  /** Trimming the end keeps everything up to the last character that is not white space. */
  lemma {:induction false} TrimEndKeeps(s: string, k: nat)
    requires k < |s| && !Space(s[k])
    ensures k < |TrimEnd(s)| && TrimEnd(s) <= s
  {
    if k < |s| - 1 && Space(s[|s| - 1]) { TrimEndKeeps(s[..|s| - 1], k); }
  }

  ghost predicate White(s: string) { forall i :: 0 <= i < |s| ==> Space(s[i]) }

  lemma {:induction false} TrimEndWhite(s: string, end: string)
    requires s != "" && !Space(s[|s| - 1]) && White(end)
    ensures TrimEnd(s + end) == s
  {
    if end == "" {
      assert s + end == s;
    } else {
      var n := |end| - 1;
      assert (s + end)[..|s| + n] == s + end[..n];
      TrimEndWhite(s, end[..n]);
    }
  }

  lemma {:induction false} TrimOnlySemicolons(u: string, semis: string)
    requires u != "" && u[|u| - 1] != ';' && forall i :: 0 <= i < |semis| ==> semis[i] == ';'
    ensures TrimSemicolons(u + semis) == u
  {
    if semis == "" {
      assert u + semis == u;
    } else {
      var n := |semis| - 1;
      assert (u + semis)[..|u| + n] == u + semis[..n];
      TrimOnlySemicolons(u, semis[..n]);
    }
  }

  /** However it is spaced, and with any number of semicolons, a line of two words bans the first
      exactly if the second is 1 and the first is an address. */
  lemma ParsedFreely(pad: string, word: string, gap: string, value: string, semis: string, end: string, valid: Validity)
    requires White(pad) && White(gap) && White(end) && gap != "" && forall i :: 0 <= i < |semis| ==> semis[i] == ';'
    requires Word(word) && Word(value) && value[|value| - 1] != ';' && word[0] !in {'#', 'g', '}'}
    ensures Parse(pad + (word + gap + value + semis + end), valid) ==
      if value == "1" && valid(word) then Some(word) else None
  {
    var u := word + gap + value;
    var t := u + semis;
    assert t[0] == word[0] && !Space(t[|t| - 1]) && u[|u| - 1] == value[|value| - 1];
    TwoFields(word, gap, value);
    hide Fields, TrimLeft, TrimEnd, TrimSemicolons, Word;
    TrimLeftSolid(pad, t + end);
    TrimEndWhite(t, end);
    TrimOnlySemicolons(u, semis);
    StartsDiffer(t, "#");
    StartsDiffer(t, "geo ");
    assert word + gap + value + semis + end == t + end;
  }

  /** A line whose first character is a number sign bans nothing. */
  lemma CommentParsed(pad: string, text: string, valid: Validity)
    requires White(pad)
    ensures Parse(pad + ("#" + text), valid) == None
  {
    var s := "#" + text;
    assert s[0] == '#';
    TrimLeftSolid(pad, s);
    TrimEndKeeps(s, 0);
    hide TrimLeft, TrimEnd, TrimSemicolons, Fields;
    assert TrimEnd(s)[..1] == "#";
  }

  lemma AssignParsed(word: string, value: string, valid: Validity)
    requires Word(word) && Word(value) && value[|value| - 1] != ';' && word[0] !in {'#', 'g', '}'}
    ensures Parse(Assign(word, value), valid) == if value == "1" && valid(word) then Some(word) else None
  {
    hide Parse, Word;
    ParsedFreely("    ", word, " ", value, ";", "", valid);
    assert Assign(word, value) == "    " + (word + " " + value + ";" + "");
  }

  lemma StartsDiffer(t: string, p: string)
    requires t != "" && p != "" && t[0] != p[0]
    ensures !StartsWith(t, p)
  {
    if |p| <= |t| { assert t[..|p|][0] == t[0]; }
  }

  /** Reading a line that bans an address gives the address back. */
  lemma BanLineRead(ip: string, valid: Validity)
    requires Addresses(valid) && valid(ip)
    ensures Parse(BanLine(ip), valid) == Some(ip)
  {
    assert forall i :: 0 <= i < |ip| ==> AddressChar(ip[i]) && !Space(ip[i]);
    assert AddressChar(ip[0]);
    AssignParsed(ip, "1", valid);
  }

  lemma StartsParsed(line: string, begin: string, k: nat, valid: Validity)
    requires |begin| <= k < |line| && begin <= line && !Space(line[0]) && !Space(line[k]) && begin in {"#", "geo "}
    ensures Parse(line, valid) == None
  {
    TrimLeftSolid("", line);
    assert "" + line == line;
    TrimEndKeeps(line, k);
    hide TrimLeft, TrimEnd;
    var t := TrimEnd(line);
    assert t[..|begin|] == begin;
  }

  /** The lines around the entries ban nothing. */
  lemma FrameLines(valid: Validity)
    ensures forall i :: 0 <= i < |HEAD| ==> Parse(HEAD[i], valid) == None
    ensures forall i :: 0 <= i < |TAIL| ==> Parse(TAIL[i], valid) == None
  {
    hide Parse;
    assert HEAD[0][2] == 'Y';
    StartsParsed(HEAD[0], "#", 2, valid);
    assert HEAD[1][4] == '$';
    StartsParsed(HEAD[1], "geo ", 4, valid);
    AssignParsed("default", "0", valid);
    EndLines(valid);
  }

  lemma EndLines(valid: Validity)
    ensures Parse("}", valid) == None && Parse("", valid) == None
  {
    assert TrimLeft("}") == "}" && TrimEnd("}") == "}" && TrimLeft("") == "" && TrimEnd("") == "";
  }

  // ----- the whole file -----

  /** `readNginxBannedIPs`. */
  function Read(lines: seq<string>, valid: Validity): set<string> {
    if lines == [] then {}
    else
      var ip := Parse(lines[|lines| - 1], valid);
      Read(lines[..|lines| - 1], valid) + if ip.Some? then {ip.value} else {}
  }

  lemma {:induction false} ReadAppend(a: seq<string>, b: seq<string>, valid: Validity)
    ensures Read(a + b, valid) == Read(a, valid) + Read(b, valid)
  {
    hide Parse;
    if b == [] {
      assert a + b == a;
    } else {
      var n := |b| - 1;
      assert (a + b)[..|a + b| - 1] == a + b[..n];
      ReadAppend(a, b[..n], valid);
    }
  }

  lemma {:induction false} ReadNothing(lines: seq<string>, valid: Validity)
    requires forall i :: 0 <= i < |lines| ==> Parse(lines[i], valid) == None
    ensures Read(lines, valid) == {}
  {
    hide Parse;
    if lines != [] { ReadNothing(lines[..|lines| - 1], valid); }
  }

  ghost predicate Ordered(entries: seq<string>) {
    forall i, j :: 0 <= i < j < |entries| ==> StrLess(entries[i], entries[j])
  }

  function BanLines(entries: seq<string>): seq<string> {
    seq(|entries|, i requires 0 <= i < |entries| => BanLine(entries[i]))
  }

  function FileOf(entries: seq<string>): seq<string> { HEAD + BanLines(entries) + TAIL }

  function Elements(entries: seq<string>): set<string> { set e | e in entries }

  lemma {:induction false} ReadBanLines(entries: seq<string>, valid: Validity)
    requires Addresses(valid) && forall i :: 0 <= i < |entries| ==> valid(entries[i])
    ensures Read(BanLines(entries), valid) == Elements(entries)
  {
    hide Parse, BanLine;
    if entries != [] {
      var n := |entries| - 1;
      assert BanLines(entries)[..n] == BanLines(entries[..n]);
      ReadBanLines(entries[..n], valid);
      BanLineRead(entries[n], valid);
      assert entries == entries[..n] + [entries[n]];
    }
  }

  /** Reading the file of a list of addresses gives exactly those addresses. */
  lemma ReadFileOf(entries: seq<string>, valid: Validity)
    requires Addresses(valid) && forall i :: 0 <= i < |entries| ==> valid(entries[i])
    ensures Read(FileOf(entries), valid) == Elements(entries)
  {
    FrameLines(valid);
    hide Parse, BanLine;
    ReadAppend(HEAD + BanLines(entries), TAIL, valid);
    ReadAppend(HEAD, BanLines(entries), valid);
    ReadNothing(HEAD, valid);
    ReadNothing(TAIL, valid);
    ReadBanLines(entries, valid);
  }

  /** An ordered list is determined by its elements. */
  lemma {:induction false} OrderedUnique(a: seq<string>, b: seq<string>)
    requires Ordered(a) && Ordered(b) && Elements(a) == Elements(b)
    ensures a == b
    decreases |a|
  {
    hide StrLess;
    if a != [] { assert a[0] in Elements(b); }
    if b != [] { assert b[0] in Elements(a); }
    if a != [] {
      var i :| 0 <= i < |b| && b[i] == a[0];
      var j :| 0 <= j < |a| && a[j] == b[0];
      StrLessTotal(a[0], b[0]);
      assert a[0] == b[0];
      forall e ensures e in a[1..] <==> e in b[1..] {
        NotAgain(a, e);
        NotAgain(b, e);
        assert e in Elements(a) <==> e in Elements(b);
      }
      assert Elements(a[1..]) == Elements(b[1..]);
      OrderedUnique(a[1..], b[1..]);
    }
  }

  lemma NotAgain(a: seq<string>, e: string)
    requires Ordered(a) && a != []
    ensures e in a[1..] <==> e in Elements(a) && e != a[0]
  {
    hide StrLess;
    StrLessIrreflexive(a[0]);
    if e in a[1..] {
      var i :| 0 <= i < |a[1..]| && a[1..][i] == e;
      assert a[i + 1] == e;
    }
  }

  // ----- writing -----

  /** The list that `renderNginxBannedIPs` writes for a map: the valid addresses marked as banned, in order. */
  ghost predicate EntriesOf(entries: seq<string>, ips: map<string, bool>, valid: Validity) {
    Ordered(entries) && forall e :: e in entries <==> e in ips && ips[e] && valid(e)
  }

  method InsertEntry(entries: seq<string>, e: string) returns (out: seq<string>)
    requires Ordered(entries) && e !in entries
    ensures Ordered(out) && Elements(out) == Elements(entries) + {e}
  {
    hide StrLess;
    var k := |entries|;
    while k > 0 && StrLess(e, entries[k - 1])
      invariant 0 <= k <= |entries| && forall i :: k <= i < |entries| ==> StrLess(e, entries[i])
    {
      k := k - 1;
    }
    forall i | 0 <= i < k ensures StrLess(entries[i], e) {
      StrLessTotal(entries[k - 1], e);
      if i < k - 1 { StrLessTransitive(entries[i], entries[k - 1], e); }
    }
    out := entries[..k] + [e] + entries[k..];
    assert forall x :: x in entries <==> x in entries[..k] || x in entries[k..];
  }

  /** `renderNginxBannedIPs`. */
  method Render(ips: map<string, bool>, valid: Validity) returns (lines: seq<string>, ghost entries: seq<string>)
    ensures EntriesOf(entries, ips, valid) && lines == FileOf(entries)
  {
    var todo := ips.Keys;
    var list: seq<string> := [];
    while todo != {}
      invariant todo <= ips.Keys && Ordered(list)
      invariant forall e :: e in list <==> e in ips && e !in todo && ips[e] && valid(e)
      decreases |todo|
    {
      var e :| e in todo;
      if ips[e] && valid(e) {
        ghost var before := list;
        list := InsertEntry(list, e);
        assert forall x :: x in list <==> x in Elements(list);
        assert forall x :: x in before <==> x in Elements(before);
      }
      todo := todo - {e};
    }
    lines, entries := FileOf(list), list;
  }

  /** Rendering is canonical: rendering what was read from a rendered file gives the same file. */
  lemma RenderReadRender(ips: map<string, bool>, valid: Validity, entries: seq<string>, again: seq<string>,
      back: map<string, bool>)
    requires Addresses(valid) && EntriesOf(entries, ips, valid) && EntriesOf(again, back, valid)
    requires back == map ip | ip in Read(FileOf(entries), valid) :: true
    ensures FileOf(again) == FileOf(entries)
    ensures Read(FileOf(entries), valid) == set ip | ip in ips && ips[ip] && valid(ip)
  {
    hide Ordered, FileOf, Read;
    ReadFileOf(entries, valid);
    assert Elements(again) == Elements(entries);
    OrderedUnique(again, entries);
  }

  lemma EntriesRead(entries: seq<string>, ips: map<string, bool>, valid: Validity)
    requires Addresses(valid) && EntriesOf(entries, ips, valid) && forall ip :: ip in ips ==> ips[ip] && valid(ip)
    ensures Read(FileOf(entries), valid) == ips.Keys
  {
    hide Parse, Read, FileOf;
    ReadFileOf(entries, valid);
  }

  /** A file as it is rendered. */
  ghost predicate Canonical(lines: Option<seq<string>>, valid: Validity) {
    && lines.Some?
    && exists entries :: Ordered(entries) && (forall e :: e in entries ==> valid(e)) && lines.value == FileOf(entries)
  }

  /** The rendered file of a set is unique. */
  lemma CanonicalUnique(lines: Option<seq<string>>, entries: seq<string>, ips: map<string, bool>, valid: Validity)
    requires Addresses(valid) && EntriesOf(entries, ips, valid) && forall ip :: ip in ips ==> ips[ip] && valid(ip)
    ensures Canonical(Some(FileOf(entries)), valid)
    ensures Canonical(lines, valid) ==>
        lines.Some? && (Read(lines.value, valid) == ips.Keys ==> lines == Some(FileOf(entries)))
  {
    hide Ordered, FileOf, Read;
    if Canonical(lines, valid) && Read(lines.value, valid) == ips.Keys {
      var was :| Ordered(was) && (forall e :: e in was ==> valid(e)) && lines.value == FileOf(was);
      ReadFileOf(was, valid);
      assert Elements(was) == Elements(entries);
      OrderedUnique(was, entries);
    }
  }

  // ----- the file as it changes -----

  /** What becomes of a file that Nginx rejects: the way back works, does nothing, or stops half way. */
  datatype WayBack = Restored | Untouched | Torn(content: seq<string>)

  /** How a write turns out; `oldRead`: the old file can be read again before it is replaced;
      `reloaded == Unacked`: Nginx loads the file and the command reports a failure. */
  datatype WriteEnv = WriteEnv(readOk: bool, oldRead: bool, placeOk: bool, testOk: bool, back: WayBack, reloaded: Write)

  /** No reload is lost, and what Nginx rejects is taken back. */
  predicate Harmless(e: WriteEnv) { e.oldRead && if e.testOk then e.reloaded != Lost else e.back == Restored }

  datatype Change = Change(ip: string, banned: bool, env: WriteEnv)

  class BanFile {
    const valid: Validity
    var lines: Option<seq<string>>

    /** The addresses that Nginx refuses, since it last loaded the file. */
    var loaded: set<string>

    /** The addresses that the file bans. */
    ghost function Banned(): set<string>
      reads this
    {
      if lines.Some? then Read(lines.value, valid) else {}
    }

    ghost predicate InStep()
      reads this
    {
      loaded == Banned()
    }

    constructor (valid: Validity, lines: Option<seq<string>>, loaded: set<string>)
      ensures this.valid == valid && this.lines == lines && this.loaded == loaded
    {
      this.valid, this.lines, this.loaded := valid, lines, loaded;
    }

    /** `readNginxBannedIPs`: a missing file bans nothing. */
    method ReadFile() returns (ips: map<string, bool>)
      ensures ips.Keys == Banned() && forall ip :: ip in ips ==> ips[ip]
    {
      ips := map[];
      if lines.None? { return; }
      var all := lines.value;
      for i := 0 to |all|
        invariant ips.Keys == Read(all[..i], valid) && forall ip :: ip in ips ==> ips[ip]
      {
        assert all[..i + 1][..i] == all[..i];
        var ip := Parse(all[i], valid);
        if ip.Some? { ips := ips[ip.value := true]; }
      }
      assert all[..|all|] == all;
    }

    /** `writeNginxBannedIPs`: nothing to do for the same content; a file that Nginx rejects is
        taken back; and only a reload changes what Nginx refuses. */
    method WriteFile(ips: map<string, bool>, reload: bool, e: WriteEnv) returns (ok: bool, ghost entries: seq<string>)
      modifies this
      ensures EntriesOf(entries, ips, valid)
      ensures var same, had := old(lines) == Some(FileOf(entries)), old(lines).Some? && e.oldRead;
        && ok == ((had && same) || (e.placeOk && (reload ==> e.testOk && e.reloaded == Acked)))
        && lines == (if (had && same) || !e.placeOk then old(lines)
                     else if e.testOk || !reload || e.back == Untouched then Some(FileOf(entries))
                     else if had && e.back.Torn? then Some(e.back.content) else if had then old(lines) else None)
        && loaded ==
             if (had && same) || !e.placeOk || !reload || !e.testOk || e.reloaded == Lost then old(loaded) else Banned()
    {
      var content;
      content, entries := Render(ips, valid);
      var had := lines.Some? && e.oldRead;
      if had && lines == Some(content) { return true, entries; }
      if !e.placeOk { return false, entries; }
      var before := lines;
      lines := Some(content);
      if !reload { return true, entries; }
      if !e.testOk {
        if e.back != Untouched {
          lines := if !had then None else if e.back.Torn? then Some(e.back.content) else before;
        }
        return false, entries;
      }
      if e.reloaded != Lost { Load(); }
      ok := e.reloaded == Acked;
    }

    /** Nginx loads the file. */
    method Load()
      modifies this`loaded
      ensures InStep()
    {
      var ips := ReadFile();
      loaded := ips.Keys;
    }

    /** `EnsureNginxBannedIPsConfig`: an empty file if there is none, without a reload. */
    method Ensure(e: WriteEnv) returns (ok: bool)
      requires Addresses(valid)
      modifies this
      ensures Banned() == old(Banned()) && loaded == old(loaded)
      ensures ok <==> old(lines).Some? || e.placeOk
      ensures ok ==> lines.Some?
    {
      hide Parse, Read, FileOf, EntriesOf;
      if lines.Some? { return true; }
      ghost var entries;
      ok, entries := WriteFile(map[], false, e);
      EntriesRead(entries, map[], valid);
    }

    /** There is nothing to write for a change: the file can be read, is as it is rendered, and says it already. */
    ghost predicate Idle(ip: string, banned: bool, oldRead: bool)
      reads this
    {
      oldRead && Canonical(lines, valid) && (ip in Banned() <==> banned)
    }

    /** `updateNginxBannedIPs`: when it succeeds, the file has gained or lost exactly one address.
        Nginx follows exactly when there is something to write, Nginx accepts it and the reload is
        not lost; so after a success Nginx and the file are in step if and only if they were
        before or there was something to write. */
    method Update(ip: string, banned: bool, e: WriteEnv) returns (ok: bool)
      requires Addresses(valid)
      modifies this
      ensures ok ==> valid(ip) && Banned() == if banned then old(Banned()) + {ip} else old(Banned()) - {ip}
      ensures ok ==> (InStep() <==> old(InStep()) || !old(Idle(ip, banned, e.oldRead)))
      ensures loaded ==
        if valid(ip) && e.readOk && e.placeOk && e.testOk && e.reloaded != Lost && !old(Idle(ip, banned, e.oldRead))
        then Banned()
        else old(loaded)
      ensures !valid(ip) || !e.readOk || !e.placeOk || old(Idle(ip, banned, e.oldRead)) ==> lines == old(lines)
      ensures e.testOk || (e.oldRead && !e.back.Torn?) ==>
        Banned() == old(Banned()) || Banned() == if banned then old(Banned()) + {ip} else old(Banned()) - {ip}
      ensures valid(ip) && e.readOk && e.placeOk && e.testOk ==>
        Banned() == if banned then old(Banned()) + {ip} else old(Banned()) - {ip}
      ensures ok <==>
        valid(ip) && e.readOk && (old(Idle(ip, banned, e.oldRead)) || (e.placeOk && e.testOk && e.reloaded == Acked))
      ensures valid(ip) && e.readOk && (ok || (e.placeOk && e.testOk)) ==> Canonical(lines, valid)
      ensures Harmless(e) && old(InStep()) ==> InStep()
    {
      hide Parse, Read, FileOf, EntriesOf, Canonical;
      if !valid(ip) || !e.readOk { return false; }
      var ips := ReadFile();
      ReadValid();
      ips := if banned then ips[ip := true] else ips - {ip};
      assert (ip in old(Banned()) <==> banned) <==> ips.Keys == old(Banned());
      ghost var entries;
      ok, entries := WriteFile(ips, true, e);
      EntriesRead(entries, ips, valid);
      CanonicalUnique(old(lines), entries, ips, valid);
    }

    /** `ReplaceNginxBannedIPs`: a success brings Nginx into step, unless the file was the same already. */
    method Replace(ips: map<string, bool>, e: WriteEnv) returns (ok: bool)
      requires Addresses(valid)
      modifies this
      ensures ok ==> Banned() == set ip | ip in ips && ips[ip] && valid(ip)
      ensures ok ==> (InStep() <==> old(InStep()) || !(e.oldRead && lines == old(lines)))
      ensures Harmless(e) && old(InStep()) ==> InStep()
    {
      hide Parse, Read, FileOf;
      ghost var entries;
      ok, entries := WriteFile(ips, true, e);
      ReadFileOf(entries, valid);
    }

    /** Over any changes without a lost reload or way back, Nginx refuses what the file bans. */
    method Serve(changes: seq<Change>)
      requires Addresses(valid) && InStep()
      requires forall i :: 0 <= i < |changes| ==> Harmless(changes[i].env)
      modifies this
      ensures InStep()
    {
      for i := 0 to |changes|
        invariant InStep()
      {
        var _ := Update(changes[i].ip, changes[i].banned, changes[i].env);
      }
    }

    /** After a lost reload the same ban again succeeds, since the file already says it, and Nginx
        still lets the address in. */
    method RepeatedInVain(ip: string, e: WriteEnv) returns (first: bool, second: bool)
      requires Addresses(valid) && valid(ip) && ip !in loaded && ip !in Banned()
      requires e.readOk && e.oldRead && e.placeOk && e.testOk && e.reloaded == Lost
      modifies this
      ensures !first && second && ip in Banned() && ip !in loaded
    {
      hide Parse, Read, FileOf, EntriesOf, Canonical;
      first := Update(ip, true, e);
      second := Update(ip, true, e.(reloaded := Acked));
    }

    /** A lost reload is made up for by the next change that succeeds and has something to write. */
    method MadeUpFor(ip: string, other: string, e: WriteEnv) returns (first: bool, second: bool)
      requires Addresses(valid) && valid(ip) && valid(other) && ip != other
      requires e.readOk && e.oldRead && e.placeOk && e.testOk && e.reloaded == Lost
      requires ip !in Banned() && other !in Banned()
      modifies this
      ensures !first && second && InStep() && ip in loaded && other in loaded
    {
      hide Parse, Read, FileOf, EntriesOf, Canonical;
      first := Update(ip, true, e);
      second := Update(other, true, e.(reloaded := Acked));
    }

    /** Only valid addresses are read. */
    lemma ReadValid()
      ensures forall ip :: ip in Banned() ==> valid(ip)
    {
      if lines.Some? { AllValid(lines.value, valid); }
    }
  }

  lemma {:induction false} AllValid(lines: seq<string>, valid: Validity)
    ensures forall ip :: ip in Read(lines, valid) ==> valid(ip)
  {
    hide Fields, TrimLeft, TrimEnd, TrimSemicolons;
    if lines != [] { AllValid(lines[..|lines| - 1], valid); }
  }
}
