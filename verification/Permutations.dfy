/** What holds of every two elements of a list does not depend on the order of the list. */
module Permutations {

  ghost predicate Pairwise<T(!new)>(s: seq<T>, f: (T, T) -> bool) {
    forall i, j :: 0 <= i < j < |s| ==> f(s[i], s[j])
  }

  ghost predicate Symmetric<T(!new)>(f: (T, T) -> bool) {
    forall x, y :: f(x, y) ==> f(y, x)
  }

  lemma {:induction false} OccursTwice<T>(s: seq<T>, x: T) returns (i: nat, j: nat)
    requires multiset(s)[x] >= 2
    ensures i < j < |s| && s[i] == x && s[j] == x
  {
    var n := |s| - 1;
    assert s == s[..n] + [s[n]];
    if s[n] == x {
      assert x in multiset(s[..n]);
      i :| 0 <= i < n && s[..n][i] == x;
      j := n;
    } else {
      i, j := OccursTwice(s[..n], x);
    }
  }

  lemma TwiceInMultiset<T>(s: seq<T>, i: nat, j: nat)
    requires i < j < |s| && s[i] == s[j]
    ensures multiset(s)[s[i]] >= 2
  {
    assert s == s[..j] + s[j..];
    assert s[i] in s[..j] && s[j] in s[j..];
  }

  lemma PairwisePermuted<T(!new)>(a: seq<T>, b: seq<T>, f: (T, T) -> bool)
    requires multiset(a) == multiset(b) && Symmetric(f) && Pairwise(a, f)
    ensures Pairwise(b, f)
  {
    forall i, j | 0 <= i < j < |b| ensures f(b[i], b[j]) {
      if b[i] == b[j] {
        TwiceInMultiset(b, i, j);
        var k, l := OccursTwice(a, b[i]);
      } else {
        assert b[i] in multiset(b) && b[j] in multiset(b);
        var k :| 0 <= k < |a| && a[k] == b[i];
        var l :| 0 <= l < |a| && a[l] == b[j];
      }
    }
  }
}
