/** Lists without repetition, and increasing ones. */
module Sequences {
  predicate Increasing(s: seq<int>) {
    forall i, j :: 0 <= i < j < |s| ==> s[i] < s[j]
  }

  ghost predicate Differ<T>(s: seq<T>, i: nat, j: nat)
    requires i < |s| && j < |s|
  {
    s[i] != s[j]
  }

  ghost predicate Distinct<T>(s: seq<T>) {
    forall i, j {:trigger Differ(s, i, j)} :: 0 <= i < j < |s| ==> Differ(s, i, j)
  }

  lemma DistinctAt<T>(s: seq<T>, j: nat)
    requires Distinct(s) && j < |s|
    ensures forall n :: 0 <= n < |s| && n != j ==> s[n] != s[j]
  {
    forall n | 0 <= n < |s| && n != j ensures s[n] != s[j] {
      assert if n < j then Differ(s, n, j) else Differ(s, j, n);
    }
  }

  lemma DistinctBefore<T>(s: seq<T>)
    requires Distinct(s) && s != []
    ensures Distinct(s[..|s|-1]) && s[|s|-1] !in s[..|s|-1]
  {
    DistinctAt(s, |s| - 1);
    var before := s[..|s|-1];
    forall i, j | 0 <= i < j < |before| ensures Differ(before, i, j) {
      assert Differ(s, i, j);
    }
  }

  /** A set of numbers that has one more or is the same. */
  lemma OneMore(a: set<int>, b: set<int>, x: int, more: bool)
    requires x !in a && forall k :: k in b <==> k in a || (more && k == x)
    ensures |b| == |a| + if more then 1 else 0
  {
    var c := a + if more then {x} else {};
    assert forall k :: k in b ==> k in c;
    assert forall k :: k in c ==> k in b;
    assert b == c;
  }
}
