/** Sequence notions the view-model is specified with: duplicate freedom,
    first occurrence, order-preserving subsequences, and the insertion-ordered
    de-duplication that a JavaScript `Set` performs. */
module Seqs {

  predicate NoDuplicates<T(==)>(s: seq<T>) {
    forall i, j :: 0 <= i < j < |s| ==> s[i] != s[j]
  }

  /** The position of the first occurrence of `x` in `s`. */
  function IndexOf<T(==)>(s: seq<T>, x: T): (k: nat)
    requires x in s
    ensures k < |s| && s[k] == x && x !in s[..k]
  {
    if s[0] == x then 0
    else
      var k' := IndexOf(s[1..], x);
      assert s[..k' + 1] == [s[0]] + s[1..][..k'];
      k' + 1
  }

  /** The first occurrence is the only position holding `x` with no `x` before it. */
  lemma IndexOfUnique<T>(s: seq<T>, x: T, k: nat)
    requires k < |s| && s[k] == x && x !in s[..k]
    ensures IndexOf(s, x) == k
  {
    var m := IndexOf(s, x);
    assert forall j :: 0 <= j < k ==> s[j] == s[..k][j];
    assert forall j :: 0 <= j < m ==> s[j] == s[..m][j];
  }

  /** Appending after `s` does not move the first occurrence of an element of `s`. */
  lemma IndexOfAppend<T>(s: seq<T>, t: seq<T>, x: T)
    requires x in s
    ensures x in s + t && IndexOf(s + t, x) == IndexOf(s, x)
  {
    var k := IndexOf(s, x);
    assert (s + t)[..k] == s[..k];
    IndexOfUnique(s + t, x, k);
  }

  /** `[...new Set(s)]`: the elements of `s`, each kept where it first occurs.
      The set built so far holds exactly the elements of the prefix read so
      far, so an element is added only when it is new. */
  function Distinct<T(==,!new)>(s: seq<T>): (r: seq<T>)
    ensures NoDuplicates(r)
    ensures forall x :: x in r <==> x in s
  {
    if s == [] then []
    else
      var seen := Distinct(s[..|s| - 1]);
      assert s == s[..|s| - 1] + [s[|s| - 1]];
      if s[|s| - 1] in seen then seen else seen + [s[|s| - 1]]
  }

  /** De-duplication never makes a sequence longer. */
  lemma {:induction false} DistinctNoLonger<T(!new)>(s: seq<T>)
    ensures |Distinct(s)| <= |s|
  {
    if s != [] {
      DistinctNoLonger(s[..|s| - 1]);
    }
  }

  /** The elements of `Distinct(s)` appear in the order of their first
      occurrence in `s`. */
  lemma {:induction false} DistinctFirstOccurrenceOrder<T(!new)>(s: seq<T>)
    ensures forall i, j :: 0 <= i < j < |Distinct(s)| ==>
              IndexOf(s, Distinct(s)[i]) < IndexOf(s, Distinct(s)[j])
  {
    if s != [] {
      var init, x := s[..|s| - 1], s[|s| - 1];
      assert s == init + [x];
      var seen := Distinct(init);
      DistinctFirstOccurrenceOrder(init);
      forall y | y in init
        ensures IndexOf(s, y) == IndexOf(init, y) < |init|
      {
        IndexOfAppend(init, [x], y);
      }
      if x !in seen {
        assert s[..|init|] == init;
        IndexOfUnique(s, x, |init|);
        assert Distinct(s) == seen + [x];
      }
    }
  }

  /** `a` is `b` with some elements left out, the rest kept in order. */
  ghost predicate IsSubsequence<T>(a: seq<T>, b: seq<T>) {
    if a == [] then true
    else if b == [] then false
    else (a[0] == b[0] && IsSubsequence(a[1..], b[1..])) || IsSubsequence(a, b[1..])
  }
}
