/** Clusters and the doubly linked least-recently-used list that runs through them. Links to
    clusters are modelled as keys into the map that holds them. */
module Clusters {
  import opened Options
  import opened Sequences
  import opened Templates

  /** A cluster is named by its ID, a tree node by a serial number. */
  type Id = int
  type NodeId = int

  datatype Cluster = Cluster(Tokens: seq<Token>, Size: int, leaf: NodeId, prev: Option<Id>, next: Option<Id>)

  // --- sequences ------------------------------------------------------------------------------

  /** s without its first x. */
  function Remove(s: seq<Id>, x: Id): seq<Id> {
    if s == [] then [] else if s[0] == x then s[1..] else [s[0]] + Remove(s[1..], x)
  }

  /** Where element i of a list comes from when its k-th element was dropped. */
  function Skip(k: nat, i: int): int {
    if i < k then i else i + 1
  }

  lemma {:induction false} RemoveAt(s: seq<Id>, k: nat)
    requires k < |s| && s[k] !in s[..k]
    ensures Remove(s, s[k]) == s[..k] + s[k+1..]
  {
    if k > 0 {
      assert s[1..][k-1] == s[k];
      assert s[1..][..k-1] == s[..k][1..];
      assert s[k] !in s[1..][..k-1];
      RemoveAt(s[1..], k - 1);
      assert s[1..][k..] == s[k+1..];
      assert s[0] != s[k] by { assert s[..k][0] == s[0]; }
      assert [s[0]] + (s[1..][..k-1] + s[k+1..]) == s[..k] + s[k+1..];
    }
  }

  lemma {:induction false} RemoveAbsent(s: seq<Id>, x: Id)
    requires x !in s
    ensures Remove(s, x) == s
  {
    if s != [] {
      RemoveAbsent(s[1..], x);
    }
  }

  /** r is s without its k-th element. */
  ghost predicate Dropped(s: seq<Id>, k: nat, r: seq<Id>)
    requires k < |s|
  {
    |r| == |s| - 1 && forall i {:trigger r[i]} :: 0 <= i < |r| ==> r[i] == s[Skip(k, i)]
  }

  lemma DroppedProps(s: seq<Id>, k: nat, r: seq<Id>)
    requires k < |s| && Distinct(s) && Dropped(s, k, r)
    ensures Distinct(r)
    ensures forall x :: x in r <==> x in s && x != s[k]
  {
    forall i, j | 0 <= i < j < |r| ensures Differ(r, i, j) {
      assert Differ(s, Skip(k, i), Skip(k, j));
    }
    forall x | x in s && x != s[k] ensures x in r {
      var j :| 0 <= j < |s| && s[j] == x;
      assert x == r[if j < k then j else j - 1];
    }
    DistinctAt(s, k);
  }

  /** In a list without repetition, Remove drops just the one place of x. */
  lemma RemoveProps(s: seq<Id>, k: nat)
    requires k < |s| && Distinct(s)
    ensures Dropped(s, k, Remove(s, s[k])) && Distinct(Remove(s, s[k]))
    ensures forall x :: x in Remove(s, s[k]) <==> x in s && x != s[k]
  {
    DistinctAt(s, k);
    RemoveAt(s, k);
    DroppedProps(s, k, Remove(s, s[k]));
  }

  // --- doubly linked lists ----------------------------------------------------------------------

  /** Element i of a list, or None beyond its ends. */
  ghost function At(s: seq<Id>, i: int): Option<Id> {
    if 0 <= i < |s| then Some(s[i]) else None
  }

  ghost predicate Neighbours(order: seq<Id>, cs: map<Id, Cluster>, i: nat)
    requires i < |order|
  {
    order[i] in cs && cs[order[i]].next == At(order, i + 1) && cs[order[i]].prev == At(order, i - 1)
  }

  /** From head to tail the links run through order: each cluster of it is visited once, and prev
      and next are inverse. */
  ghost predicate Linked(order: seq<Id>, cs: map<Id, Cluster>, head: Option<Id>, tail: Option<Id>) {
    && Distinct(order)
    && head == At(order, 0) && tail == At(order, |order| - 1)
    && forall i {:trigger Neighbours(order, cs, i)} :: 0 <= i < |order| ==> Neighbours(order, cs, i)
  }

  /** A cluster outside the list, with no links. */
  ghost predicate Loose(c: Id, order: seq<Id>, cs: map<Id, Cluster>) {
    c !in order && c in cs && cs[c].prev == None && cs[c].next == None
  }

  /** Taking c out of the list: its neighbours name each other, nobody else changes. */
  lemma LinkedWithout(order: seq<Id>, cs: map<Id, Cluster>, head: Option<Id>, tail: Option<Id>,
                      k: nat, r: seq<Id>, cs': map<Id, Cluster>)
    requires Linked(order, cs, head, tail) && k < |order|
    requires Dropped(order, k, r) && Distinct(r) && cs'.Keys == cs.Keys
    requires forall d :: d in cs && d != order[k] ==>
      && cs'[d].next == (if Some(d) == At(order, k - 1) then At(order, k + 1) else cs[d].next)
      && cs'[d].prev == (if Some(d) == At(order, k + 1) then At(order, k - 1) else cs[d].prev)
    ensures Linked(r, cs', if k == 0 then At(order, 1) else head, if k == |order| - 1 then At(order, k - 1) else tail)
  {
    forall i | 0 <= i < |r| ensures Neighbours(r, cs', i) {
      var j := Skip(k, i);
      assert Neighbours(order, cs, j) && r[i] == order[j];
      DistinctAt(order, j);
      assert At(r, i + 1) == if j == k - 1 then At(order, k + 1) else At(order, j + 1);
      assert At(r, i - 1) == if j == k + 1 then At(order, k - 1) else At(order, j - 1);
    }
  }

  /** Putting a loose c in front of the list. */
  lemma LinkedWith(order: seq<Id>, cs: map<Id, Cluster>, head: Option<Id>, tail: Option<Id>, c: Id, cs': map<Id, Cluster>)
    requires Linked(order, cs, head, tail) && Loose(c, order, cs)
    requires cs'.Keys == cs.Keys && cs'[c].prev == None && cs'[c].next == head
    requires forall d :: d in order && d in cs ==>
      cs'[d].next == cs[d].next && cs'[d].prev == if head == Some(d) then Some(c) else cs[d].prev
    ensures Linked([c] + order, cs', Some(c), if tail == None then Some(c) else tail)
  {
    var r := [c] + order;
    forall i | 0 <= i < |r| ensures Neighbours(r, cs', i) {
      if i > 0 {
        assert r[i] == order[i-1] && Neighbours(order, cs, i - 1);
        assert i > 1 ==> Differ(order, 0, i - 1);
      }
    }
    forall i, j | 0 <= i < j < |r| ensures Differ(r, i, j) {
      if i > 0 {
        assert Differ(order, i - 1, j - 1);
      }
    }
  }

  ghost function IndexOf(s: seq<Id>, x: Id): (k: nat)
    requires x in s
    ensures k < |s| && s[k] == x
  {
    if s[0] == x then 0 else IndexOf(s[1..], x) + 1
  }

  /** Two cluster maps that differ in their links only. */
  ghost predicate SameData(a: map<Id, Cluster>, b: map<Id, Cluster>) {
    a.Keys == b.Keys
    && forall c :: c in a ==> a[c].Tokens == b[c].Tokens && a[c].Size == b[c].Size && a[c].leaf == b[c].leaf
  }
}
