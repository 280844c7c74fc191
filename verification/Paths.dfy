/**
 Slash-separated paths: splitting, joining, and the two orders the panel uses.
 `StrLess` is the order of plain strings; `PathLess` compares component by
 component.  They differ: '-' sorts before '/', so "a-b" precedes "a/b" as a
 string, but the directory "a" and everything in it precedes "a-b" as a path.
 */
module Paths {

  // ----- splitting and joining -----

  /** `strings.Split(s, "/")`. */
  function Split(s: string): (parts: seq<string>)
    ensures |parts| >= 1
  {
    if s == "" then [""]
    else
      var n := |s| - 1;
      var rest := Split(s[..n]);
      if s[n] == '/' then rest + [""]
      else rest[..|rest| - 1] + [rest[|rest| - 1] + [s[n]]]
  }

  /** `strings.Join(parts, "/")`. */
  function Join(parts: seq<string>): string {
    if parts == [] then ""
    else if |parts| == 1 then parts[0]
    else Join(parts[..|parts| - 1]) + "/" + parts[|parts| - 1]
  }

  ghost predicate Plain(part: string) { '/' !in part }

  ghost predicate AllPlain(parts: seq<string>) {
    forall i :: 0 <= i < |parts| ==> Plain(parts[i])
  }

  lemma {:induction false} SplitAppend(s: string, part: string)
    requires Plain(part)
    ensures Split(s + "/" + part) == Split(s) + [part]
  {
    var t := s + "/" + part;
    var n := |t| - 1;
    if part == "" {
      assert t[..n] == s;
    } else {
      var m := |part| - 1;
      assert part[m] in part;
      assert t[..n] == s + "/" + part[..m];
      SplitAppend(s, part[..m]);
      assert part == part[..m] + [part[m]];
    }
  }

  lemma {:induction false} SplitPlain(part: string)
    requires Plain(part)
    ensures Split(part) == [part]
  {
    if part != "" {
      var m := |part| - 1;
      assert part[m] in part;
      SplitPlain(part[..m]);
      assert part == part[..m] + [part[m]];
    }
  }

  /** Splitting undoes joining. */
  lemma {:induction false} SplitOfJoin(parts: seq<string>)
    requires |parts| >= 1 && AllPlain(parts)
    ensures Split(Join(parts)) == parts
  {
    hide Split, Plain;
    var n := |parts| - 1;
    if n == 0 {
      SplitPlain(parts[0]);
      assert parts == [parts[0]];
    } else {
      SplitOfJoin(parts[..n]);
      SplitAppend(Join(parts[..n]), parts[n]);
      assert parts == parts[..n] + [parts[n]];
    }
  }

  /** Joining undoes splitting, and no component holds a slash. */
  lemma {:induction false} JoinOfSplit(s: string)
    ensures Join(Split(s)) == s && AllPlain(Split(s))
  {
    if s != "" {
      var n := |s| - 1;
      JoinOfSplit(s[..n]);
      var rest := Split(s[..n]);
      var m := |rest| - 1;
      assert s == s[..n] + [s[n]];
      if s[n] == '/' {
        assert (rest + [""])[..m + 1] == rest;
      } else {
        var last := rest[m] + [s[n]];
        assert (rest[..m] + [last])[..m] == rest[..m];
      }
    }
  }

  lemma {:induction false} JoinCons(a: string, parts: seq<string>)
    requires parts != []
    ensures Join([a] + parts) == a + "/" + Join(parts)
  {
    var n := |parts| - 1;
    assert ([a] + parts)[..n + 1] == [a] + parts[..n];
    if n > 0 {
      JoinCons(a, parts[..n]);
      assert Join([a] + parts) == a + "/" + Join(parts[..n]) + "/" + parts[n];
      assert Join(parts) == Join(parts[..n]) + "/" + parts[n];
      assert a + "/" + Join(parts[..n]) + "/" + parts[n] == a + "/" + (Join(parts[..n]) + "/" + parts[n]);
    } else {
      assert [a] + parts == [a, parts[0]] && [a, parts[0]][..1] == [a];
    }
  }

  lemma SplitCons(a: string, t: string)
    requires Plain(a)
    ensures Split(a + "/" + t) == [a] + Split(t)
  {
    JoinOfSplit(t);
    JoinCons(a, Split(t));
    SplitOfJoin([a] + Split(t));
  }

  lemma {:induction false} JoinAppend(a: seq<string>, b: seq<string>)
    requires a != [] && b != []
    ensures Join(a + b) == Join(a) + "/" + Join(b)
  {
    var n := |b| - 1;
    assert (a + b)[..|a| + n] == a + b[..n];
    if n == 0 {
      assert a + b[..n] == a;
    } else {
      JoinAppend(a, b[..n]);
      assert Join(a) + "/" + Join(b[..n]) + "/" + b[n] == Join(a) + "/" + (Join(b[..n]) + "/" + b[n]);
    }
  }

  lemma SplitSlash(s: string, t: string)
    ensures Split(s + "/" + t) == Split(s) + Split(t)
  {
    JoinOfSplit(s);
    JoinOfSplit(t);
    JoinAppend(Split(s), Split(t));
    SplitOfJoin(Split(s) + Split(t));
  }

  /** A path begins with a component and a slash exactly when that is its first component and not its last. */
  lemma SplitBegins(s: string, a: string)
    requires Plain(a)
    ensures a + "/" <= s <==> |Split(s)| >= 2 && Split(s)[0] == a
    ensures a + "/" <= s ==> Split(s) == [a] + Split(s[|a| + 1..])
  {
    if a + "/" <= s {
      assert s == a + "/" + s[|a| + 1..];
      SplitCons(a, s[|a| + 1..]);
    }
    if |Split(s)| >= 2 && Split(s)[0] == a {
      JoinOfSplit(s);
      assert Split(s) == [a] + Split(s)[1..];
      JoinCons(a, Split(s)[1..]);
    }
  }

  lemma SamePrefix(a: string, b: string, t: string)
    ensures b <= t <==> a + b <= a + t
  {
    if a + b <= a + t { assert (a + t)[|a|..] == t && (a + b)[|a|..] == b; }
    if b <= t { assert a + t == a + b + t[|b|..]; }
  }

  lemma TwoComponents(path: string, a: string, b: string)
    requires Plain(a) && Plain(b)
    ensures a + "/" + (b + "/") <= path <==> |Split(path)| >= 3 && Split(path)[0] == a && Split(path)[1] == b
  {
    hide Split, Plain;
    SplitBegins(path, a);
    if a + "/" <= path {
      var t := path[|a| + 1..];
      assert path == a + "/" + t;
      SplitBegins(t, b);
      SamePrefix(a + "/", b + "/", t);
    }
  }

  lemma SplitSingle(s: string)
    ensures |Split(s)| == 1 <==> '/' !in s
  {
    if '/' !in s { SplitPlain(s); }
    JoinOfSplit(s);
  }

  lemma SplitInjective(a: string, b: string)
    requires Split(a) == Split(b)
    ensures a == b
  {
    JoinOfSplit(a);
    JoinOfSplit(b);
  }

  // ----- lexicographic orders -----

  /** a and b agree on the first k elements and differ, or one ends, right there. */
  predicate PartAt<T(==)>(a: seq<T>, b: seq<T>, k: nat) {
    && k <= |a| && k <= |b|
    && (forall i :: 0 <= i < k ==> a[i] == b[i])
    && (k < |a| && k < |b| ==> a[k] != b[k])
  }

  function PartingFrom<T(==)>(a: seq<T>, b: seq<T>, i: nat): (k: nat)
    requires i <= |a| && i <= |b| && forall j :: 0 <= j < i ==> a[j] == b[j]
    ensures PartAt(a, b, k)
    decreases |a| - i
  {
    if i < |a| && i < |b| && a[i] == b[i] then PartingFrom(a, b, i + 1) else i
  }

  /** The length of the longest common prefix. */
  function Parting<T(==)>(a: seq<T>, b: seq<T>): (k: nat)
    ensures PartAt(a, b, k)
  {
    PartingFrom(a, b, 0)
  }

  lemma PartingUnique<T>(a: seq<T>, b: seq<T>, k: nat)
    requires PartAt(a, b, k)
    ensures Parting(a, b) == k
  {
    var m := Parting(a, b);
    if m < |a| && m < |b| { assert a[m] != b[m]; }
    if k < |a| && k < |b| { assert a[k] != b[k]; }
  }

  predicate StrLess(a: string, b: string) {
    var k := Parting(a, b);
    k < |b| && (k == |a| || a[k] < b[k])
  }

  predicate PartsLess(a: seq<string>, b: seq<string>) {
    var k := Parting(a, b);
    k < |b| && (k == |a| || StrLess(a[k], b[k]))
  }

  predicate PathLess(a: string, b: string) { PartsLess(Split(a), Split(b)) }

  lemma PartingSymmetric<T>(a: seq<T>, b: seq<T>)
    ensures Parting(a, b) == Parting(b, a)
  {
    PartingUnique(b, a, Parting(a, b));
  }

  lemma PartingSelf<T>(a: seq<T>)
    ensures Parting(a, a) == |a|
  {
    PartingUnique(a, a, |a|);
  }

  /** Where a and c part, given where a and b and where b and c part. */
  lemma PartingTransitive<T>(a: seq<T>, b: seq<T>, c: seq<T>)
    ensures var i, j := Parting(a, b), Parting(b, c);
      && (i < j ==> Parting(a, c) == i)
      && (j < i ==> Parting(a, c) == j)
      && (i == j && i < |a| && i < |b| && i < |c| && a[i] != c[i] ==> Parting(a, c) == i)
      && (i == j && (i == |a| || i == |c|) ==> Parting(a, c) == i)
  {
    var i, j := Parting(a, b), Parting(b, c);
    if i < j {
      assert i <= |a| && i <= |c|;
      if i < |a| && i < |c| { assert a[i] != b[i] && b[i] == c[i]; }
      PartingUnique(a, c, i);
    } else if j < i {
      if j < |a| && j < |c| { assert a[j] == b[j] && b[j] != c[j]; }
      PartingUnique(a, c, j);
    } else if i < |a| && i < |b| && i < |c| && a[i] != c[i] {
      PartingUnique(a, c, i);
    } else if i == |a| || i == |c| {
      PartingUnique(a, c, i);
    }
  }

  lemma StrLessIrreflexive(a: string)
    ensures !StrLess(a, a)
  {
    PartingSelf(a);
  }

  lemma StrLessTotal(a: string, b: string)
    ensures StrLess(a, b) || StrLess(b, a) || a == b
    ensures !(StrLess(a, b) && StrLess(b, a))
  {
    PartingSymmetric(a, b);
  }

  lemma StrLessTransitive(a: string, b: string, c: string)
    requires StrLess(a, b) && StrLess(b, c)
    ensures StrLess(a, c)
  {
    PartingTransitive(a, b, c);
  }

  lemma PartsLessTotal(a: seq<string>, b: seq<string>)
    ensures PartsLess(a, b) || PartsLess(b, a) || a == b
    ensures !(PartsLess(a, b) && PartsLess(b, a))
    ensures !PartsLess(a, a)
  {
    PartingSelf(a);
    PartingSymmetric(a, b);
    var k := Parting(a, b);
    if k < |a| && k < |b| { StrLessTotal(a[k], b[k]); }
  }

  lemma PartsLessTransitive(a: seq<string>, b: seq<string>, c: seq<string>)
    requires PartsLess(a, b) && PartsLess(b, c)
    ensures PartsLess(a, c)
  {
    PartingTransitive(a, b, c);
    var i, j := Parting(a, b), Parting(b, c);
    if i == j && i < |a| {
      StrLessTransitive(a[i], b[i], c[i]);
      StrLessIrreflexive(a[i]);
    }
  }

  /** The component order is a strict total order on path strings. */
  lemma PathLessTotal(a: string, b: string)
    ensures PathLess(a, b) || PathLess(b, a) || a == b
    ensures !(PathLess(a, b) && PathLess(b, a)) && !PathLess(a, a)
  {
    PartsLessTotal(Split(a), Split(b));
    if Split(a) == Split(b) { SplitInjective(a, b); }
  }

  lemma PathLessTransitive(a: string, b: string, c: string)
    requires PathLess(a, b) && PathLess(b, c)
    ensures PathLess(a, c)
  {
    PartsLessTransitive(Split(a), Split(b), Split(c));
  }

  /** A path precedes everything below it. */
  lemma PrefixLess(a: seq<string>, b: seq<string>)
    requires a <= b && |a| < |b|
    ensures PartsLess(a, b)
  {
    PartingUnique(a, b, |a|);
  }

  /** Everything below one name precedes everything below a later sibling. */
  lemma SiblingsLess(prefix: seq<string>, m: string, n: string, a: seq<string>, b: seq<string>)
    requires StrLess(m, n) && prefix + [m] <= a && prefix + [n] <= b
    ensures PartsLess(a, b)
  {
    StrLessIrreflexive(m);
    var k := |prefix|;
    assert a[k] == (prefix + [m])[k] && b[k] == (prefix + [n])[k];
    forall i | 0 <= i < k ensures a[i] == b[i] {
      assert a[i] == (prefix + [m])[i] && b[i] == (prefix + [n])[i];
    }
    PartingUnique(a, b, k);
  }

  /** `compareFileIntegrityPath`: the sign says how the two paths are ordered. */
  method ComparePath(a: string, b: string) returns (c: int)
    ensures c < 0 <==> PathLess(a, b)
    ensures c > 0 <==> PathLess(b, a)
    ensures c == 0 <==> a == b
  {
    PathLessTotal(a, b);
    PartsLessTotal(Split(a), Split(b));
    var x, y := Split(a), Split(b);
    PartingSymmetric(x, y);
    var i := 0;
    while i < |x| && i < |y|
      invariant i <= |x| && i <= |y|
      invariant forall j :: 0 <= j < i ==> x[j] == y[j]
    {
      StrLessTotal(x[i], y[i]);
      if StrLess(x[i], y[i]) {
        StrLessIrreflexive(x[i]);
        PartingUnique(x, y, i);
        return -1;
      }
      if StrLess(y[i], x[i]) {
        StrLessIrreflexive(x[i]);
        PartingUnique(x, y, i);
        return 1;
      }
      i := i + 1;
    }
    PartingUnique(x, y, i);
    if |x| < |y| { return -1; }
    if |x| > |y| { return 1; }
    return 0;
  }
}
