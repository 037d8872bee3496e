/** A few notions about sequences that several modules share. */
module Sequences {

  ghost predicate Distinct<T>(s: seq<T>) {
    forall i, j :: 0 <= i < j < |s| ==> s[i] != s[j]
  }

  /** Where `x` is first found, the length if nowhere. */
  function FirstIndex<T(==)>(s: seq<T>, x: T): (i: nat)
    ensures i <= |s| && (i < |s| ==> s[i] == x)
    ensures forall k :: 0 <= k < i ==> s[k] != x
  {
    if s == [] then 0 else if s[0] == x then 0 else 1 + FirstIndex(s[1..], x)
  }

  lemma FirstIndexDistinct<T>(s: seq<T>, i: nat)
    requires Distinct(s) && i < |s|
    ensures FirstIndex(s, s[i]) == i
  {
  }

  /** The sequence without its i-th element. */
  function CutAt<T>(s: seq<T>, i: nat): seq<T>
    requires i < |s|
  {
    s[..i] + s[i + 1..]
  }

  lemma CutAtIndex<T>(s: seq<T>, k: nat)
    requires k < |s|
    ensures forall i :: 0 <= i < |CutAt(s, k)| ==> CutAt(s, k)[i] == s[if i < k then i else i + 1]
  {
  }

  lemma CutLeavesOthers<T>(s: seq<T>, k: nat)
    requires k < |s| && Distinct(s)
    ensures Distinct(CutAt(s, k))
    ensures forall x :: x in CutAt(s, k) <==> x in s && x != s[k]
  {
    var after := CutAt(s, k);
    forall x | x in s && x != s[k]
      ensures x in after
    {
      var i :| 0 <= i < |s| && s[i] == x;
      assert after[if i < k then i else i - 1] == x;
    }
  }

  lemma AddKeepsDistinct<T>(s: seq<T>, x: T)
    requires Distinct(s) && x !in s
    ensures Distinct(s + [x])
    ensures forall y :: y in s + [x] <==> y in s || y == x
  {
  }

  lemma PrefixGrows<T>(a: seq<T>, b: seq<T>, c: seq<T>)
    requires a <= b <= c
    ensures a <= c
  {
  }

  /** What was added to a sequence in two goes. */
  lemma AddedInTwo<T>(a: seq<T>, b: seq<T>, c: seq<T>)
    requires a <= b <= c
    ensures a <= c && c[|a|..] == b[|a|..] + c[|b|..]
  {
  }

  /** `a` is `b` with some elements left out. */
  ghost predicate Subsequence<T>(a: seq<T>, b: seq<T>) {
    || a == []
    || (b != [] && Subsequence(a, b[..|b| - 1]))
    || (b != [] && a[|a| - 1] == b[|b| - 1] && Subsequence(a[..|a| - 1], b[..|b| - 1]))
  }

  lemma SubsequenceGrows<T>(a: seq<T>, b: seq<T>, x: T)
    requires Subsequence(a, b)
    ensures Subsequence(a, b + [x]) && Subsequence(a + [x], b + [x])
  {
    assert (b + [x])[..|b|] == b && (a + [x])[..|a|] == a;
  }

  lemma {:induction false} SubsequenceKeepsMembers<T>(a: seq<T>, b: seq<T>)
    requires Subsequence(a, b)
    ensures forall x :: x in a ==> x in b
  {
    if a != [] {
      if Subsequence(a, b[..|b| - 1]) {
        SubsequenceKeepsMembers(a, b[..|b| - 1]);
      } else {
        SubsequenceKeepsMembers(a[..|a| - 1], b[..|b| - 1]);
        assert a == a[..|a| - 1] + [a[|a| - 1]];
      }
    }
  }

  lemma {:induction false} SubsequenceIsTransitive<T>(a: seq<T>, b: seq<T>, c: seq<T>)
    requires Subsequence(a, b) && Subsequence(b, c)
    ensures Subsequence(a, c)
    decreases |c|
  {
    if a != [] {
      var c' := c[..|c| - 1];
      if Subsequence(b, c') {
        SubsequenceIsTransitive(a, b, c');
      } else if Subsequence(a, b[..|b| - 1]) {
        SubsequenceIsTransitive(a, b[..|b| - 1], c');
      } else {
        SubsequenceIsTransitive(a[..|a| - 1], b[..|b| - 1], c');
      }
    }
  }

  lemma {:induction false} SliceIsSubsequence<T>(s: seq<T>, i: nat, j: nat)
    requires i <= j <= |s|
    ensures Subsequence(s[i..j], s)
  {
    if i < j {
      var init := s[..|s| - 1];
      if j == |s| {
        SliceIsSubsequence(init, i, j - 1);
        assert s[i..j][..j - i - 1] == init[i..j - 1];
      } else {
        SliceIsSubsequence(init, i, j);
        assert s[i..j] == init[i..j];
      }
    }
  }

  lemma {:induction false} SubsequenceIsNoLonger<T>(a: seq<T>, b: seq<T>)
    requires Subsequence(a, b)
    ensures |a| <= |b|
    ensures |a| == |b| ==> a == b
  {
    if a != [] {
      if Subsequence(a, b[..|b| - 1]) {
        SubsequenceIsNoLonger(a, b[..|b| - 1]);
      } else {
        SubsequenceIsNoLonger(a[..|a| - 1], b[..|b| - 1]);
        assert a == a[..|a| - 1] + [a[|a| - 1]] && b == b[..|b| - 1] + [b[|b| - 1]];
      }
    }
  }

  lemma {:induction false} SubsequenceKeepsDistinct<T>(a: seq<T>, b: seq<T>)
    requires Subsequence(a, b) && Distinct(b)
    ensures Distinct(a)
  {
    if a != [] {
      var init := b[..|b| - 1];
      assert Distinct(init);
      if Subsequence(a, init) {
        SubsequenceKeepsDistinct(a, init);
      } else {
        SubsequenceKeepsDistinct(a[..|a| - 1], init);
        SubsequenceKeepsMembers(a[..|a| - 1], init);
        forall i | 0 <= i < |a| - 1
          ensures a[i] != a[|a| - 1]
        {
          assert a[i] in a[..|a| - 1];
        }
      }
    }
  }
}
