/** The template miner: a prefix forest, an id map and a doubly linked least-recently-used list
    over the same clusters, all changed in place by Add, Hit, Restore and eviction. */
module Drain {
  import opened Options
  import opened Sequences
  import opened Templates
  import opened Clusters
  import opened Forest

  datatype Change = Unchanged | Created | Updated

  function Sum(s: seq<int>): int {
    if s == [] then 0 else Sum(s[..|s|-1]) + s[|s|-1]
  }

  // --- choosing the best cluster of a leaf ------------------------------------------------------

  ghost predicate SameLength(cs: map<Id, Cluster>, ids: seq<Id>, toks: seq<Token>) {
    forall i :: 0 <= i < |ids| ==> ids[i] in cs && |cs[ids[i]].Tokens| == |toks|
  }

  /** The first of the first n clusters that no other one of them beats. */
  ghost function Best(cs: map<Id, Cluster>, ids: seq<Id>, toks: seq<Token>, n: nat): Option<Id>
    requires n <= |ids| && SameLength(cs, ids, toks)
    ensures n > 0 ==> Best(cs, ids, toks, n).Some? && Best(cs, ids, toks, n).value in ids
  {
    if n == 0 then None
    else
      var b := Best(cs, ids, toks, n - 1);
      if b == None || Beats(cs[ids[n-1]].Tokens, cs[b.value].Tokens, toks) then Some(ids[n-1]) else b
  }

  /** Place k of ids beats all places before it, and no place after it beats it. */
  ghost predicate Wins(cs: map<Id, Cluster>, ids: seq<Id>, toks: seq<Token>, n: nat, k: nat)
    requires k < n <= |ids| && SameLength(cs, ids, toks)
  {
    && (forall j :: 0 <= j < k ==> Beats(cs[ids[k]].Tokens, cs[ids[j]].Tokens, toks))
    && (forall j :: k <= j < n ==> !Beats(cs[ids[j]].Tokens, cs[ids[k]].Tokens, toks))
  }

  lemma {:induction false} BestWins(cs: map<Id, Cluster>, ids: seq<Id>, toks: seq<Token>, n: nat) returns (k: nat)
    requires 0 < n <= |ids| && SameLength(cs, ids, toks)
    ensures k < n && Wins(cs, ids, toks, n, k) && Best(cs, ids, toks, n) == Some(ids[k])
  {
    if n == 1 {
      k := 0;
    } else {
      k := BestWins(cs, ids, toks, n - 1);
      if Beats(cs[ids[n-1]].Tokens, cs[ids[k]].Tokens, toks) {
        k := n - 1;
      }
    }
  }

  lemma {:induction false} WinnerIsBest(cs: map<Id, Cluster>, ids: seq<Id>, toks: seq<Token>, n: nat, k: nat)
    requires k < n <= |ids| && SameLength(cs, ids, toks) && Wins(cs, ids, toks, n, k)
    ensures Best(cs, ids, toks, n) == Some(ids[k])
  {
    if k < n - 1 {
      WinnerIsBest(cs, ids, toks, n - 1, k);
    } else if n > 1 {
      var m := BestWins(cs, ids, toks, n - 1);
    }
  }

  /** The cluster of a leaf that a message is merged into, if one is similar enough. */
  ghost function Choose(cs: map<Id, Cluster>, ids: seq<Id>, toks: seq<Token>, simTh: real): Option<Id>
    requires SameLength(cs, ids, toks)
  {
    var b := Best(cs, ids, toks, |ids|);
    if b != None && Sim(cs[b.value].Tokens, toks) >= simTh then b else None
  }

  /** Nothing is chosen exactly when every cluster is too far from the message. */
  lemma ChooseNone(cs: map<Id, Cluster>, ids: seq<Id>, toks: seq<Token>, simTh: real)
    requires SameLength(cs, ids, toks)
    ensures Choose(cs, ids, toks, simTh) == None <==>
            forall i :: 0 <= i < |ids| ==> Sim(cs[ids[i]].Tokens, toks) < simTh
    ensures Choose(cs, ids, toks, simTh) != None ==> Choose(cs, ids, toks, simTh).value in ids
  {
    if ids != [] {
      var k := BestWins(cs, ids, toks, |ids|);
    }
  }

  /** The cluster at place k is near enough, none has more in common with the message, of those with as much none has
      more parameters, and it is the first such. */
  ghost predicate Nearest(cs: map<Id, Cluster>, ids: seq<Id>, toks: seq<Token>, simTh: real, k: nat)
    requires k < |ids| && SameLength(cs, ids, toks)
  {
    var best := cs[ids[k]].Tokens;
    && Sim(best, toks) >= simTh
    && forall i :: 0 <= i < |ids| ==>
         var tpl := cs[ids[i]].Tokens;
         && Sim(tpl, toks) <= Sim(best, toks)
         && (Sim(tpl, toks) == Sim(best, toks) ==> Params(tpl) <= Params(best) && (i < k ==> Params(tpl) < Params(best)))
  }

  /** That is the one that is chosen. */
  lemma ChosenIsNearest(cs: map<Id, Cluster>, ids: seq<Id>, toks: seq<Token>, simTh: real, k: nat)
    requires SameLength(cs, ids, toks) && Distinct(ids) && k < |ids|
    ensures Choose(cs, ids, toks, simTh) == Some(ids[k]) <==> Nearest(cs, ids, toks, simTh, k)
  {
    hide Sim, Params;
    var n := BestWins(cs, ids, toks, |ids|);
    DistinctAt(ids, n);
    if Nearest(cs, ids, toks, simTh, k) {
      WinnerIsBest(cs, ids, toks, |ids|, k);
    }
  }

  /** After a message is merged into the chosen cluster, that cluster is still the chosen one. */
  lemma ChooseAfterMerge(cs: map<Id, Cluster>, cs': map<Id, Cluster>, ids: seq<Id>, toks: seq<Token>, simTh: real, id: Id)
    requires SameLength(cs, ids, toks) && SameLength(cs', ids, toks) && Distinct(ids)
    requires Choose(cs, ids, toks, simTh) == Some(id)
    requires forall i :: 0 <= i < |ids| ==>
      cs'[ids[i]].Tokens == if ids[i] == id then Generalise(cs[ids[i]].Tokens, toks) else cs[ids[i]].Tokens
    ensures Choose(cs', ids, toks, simTh) == Some(id)
  {
    var k := BestWins(cs, ids, toks, |ids|);
    GeneraliseSettles(cs[ids[k]].Tokens, toks);
    DistinctAt(ids, k);
    WinnerIsBest(cs', ids, toks, |ids|, k);
  }

  /** Among clusters that are too far from the message, a new one is chosen if it is near enough. */
  lemma ChooseAfterCreate(cs: map<Id, Cluster>, ids: seq<Id>, toks: seq<Token>, simTh: real, id: Id)
    requires SameLength(cs, ids, toks) && Distinct(ids) && id in ids
    requires forall i :: 0 <= i < |ids| && ids[i] != id ==> Sim(cs[ids[i]].Tokens, toks) < simTh
    ensures Choose(cs, ids, toks, simTh) == if Sim(cs[id].Tokens, toks) >= simTh then Some(id) else None
  {
    var k :| 0 <= k < |ids| && ids[k] == id;
    DistinctAt(ids, k);
    if Sim(cs[id].Tokens, toks) >= simTh {
      WinnerIsBest(cs, ids, toks, |ids|, k);
    } else {
      ChooseNone(cs, ids, toks, simTh);
    }
  }

  // --- the forest and the clusters together -----------------------------------------------------

  /** The live template a message would be merged into, or None if it would start a new one. */
  ghost function Lookup(tree: Tree, cs: map<Id, Cluster>, toks: seq<Token>, maxDepth: int, simTh: real): Option<Id> {
    match LeafFor(tree, toks, maxDepth)
    case None => None
    case Some(x) =>
      if x in tree.nodes && SameLength(cs, tree.nodes[x].clusters, toks)
      then Choose(cs, tree.nodes[x].clusters, toks, simTh) else None
  }

  lemma LeafLen(tree: Tree, place: map<NodeId, Place>, cs: map<Id, Cluster>, toks: seq<Token>, maxDepth: int, maxChildren: int)
    requires WellFormed(tree, place, maxChildren) && Leaves(tree.nodes, place, cs)
    ensures match LeafFor(tree, toks, maxDepth)
            case None => true
            case Some(x) => x in tree.nodes && SameLength(cs, tree.nodes[x].clusters, toks)
  {
    if |toks| in tree.byLen {
      WalkLen(tree.byLen, tree.nodes, place, tree.byLen[|toks|], toks, 1, maxDepth);
      match LeafFor(tree, toks, maxDepth)
      case None =>
      case Some(x) =>
        var ids := tree.nodes[x].clusters;
        forall i | 0 <= i < |ids| ensures ids[i] in cs && |cs[ids[i]].Tokens| == |toks| {
          assert Owns(tree.nodes, cs, x, ids[i]) && Sits(tree.nodes, place, cs[ids[i]], ids[i]);
        }
    }
  }

  lemma LeavesAfterInsert(tree: Tree, tree': Tree, place: map<NodeId, Place>, place': map<NodeId, Place>,
                          cs: map<Id, Cluster>, id: Id, c: Cluster, maxDepth: int)
    requires Leaves(tree.nodes, place, cs) && tree.nodes.Keys == place.Keys && tree'.nodes.Keys == place'.Keys
    requires id !in cs && Inserted(tree, tree', place, place', c.Tokens, id, c.leaf, maxDepth)
    ensures Leaves(tree'.nodes, place', cs[id := c])
  {
    var cs' := cs[id := c];
    var ids, leaf := tree'.nodes[c.leaf].clusters, c.leaf;
    assert Distinct(ids) by {
      assert leaf in tree.nodes ==> Distinct(tree.nodes[leaf].clusters);
      forall i, j | 0 <= i < j < |ids| ensures Differ(ids, i, j) {
        if j < |ids| - 1 {
          assert Differ(tree.nodes[leaf].clusters, i, j);
        } else {
          assert Owns(tree.nodes, cs, leaf, ids[i]) && ids[i] in tree.nodes[leaf].clusters;
        }
      }
    }
    forall x, d ensures Owns(tree'.nodes, cs', x, d) {
      assert Owns(tree.nodes, cs, x, d);
    }
    forall d | d in cs' ensures Sits(tree'.nodes, place', cs'[d], d) {
      assert d in cs ==> Sits(tree.nodes, place, cs[d], d);
    }
    forall x | x in tree'.nodes ensures Distinct(tree'.nodes[x].clusters) {
      assert x in tree.nodes ==> Distinct(tree.nodes[x].clusters);
    }
  }

  /** tree with cluster id taken out of a leaf. */
  ghost function Pruned(tree: Tree, leaf: NodeId, id: Id): Tree {
    if leaf !in tree.nodes then tree
    else tree.(nodes := tree.nodes[leaf := tree.nodes[leaf].(clusters := Remove(tree.nodes[leaf].clusters, id))])
  }

  lemma LeavesAfterRemove(tree: Tree, place: map<NodeId, Place>, cs: map<Id, Cluster>, id: Id)
    requires Leaves(tree.nodes, place, cs) && id in cs
    ensures Leaves(Pruned(tree, cs[id].leaf, id).nodes, place, cs - {id})
    ensures forall x, d :: x in tree.nodes ==>
      (d in Pruned(tree, cs[id].leaf, id).nodes[x].clusters <==> d in tree.nodes[x].clusters && d != id)
  {
    var leaf := cs[id].leaf;
    assert Sits(tree.nodes, place, cs[id], id);
    var ids := tree.nodes[leaf].clusters;
    assert Distinct(tree.nodes[leaf].clusters);
    var k := IndexOf(ids, id);
    RemoveProps(ids, k);
    var nodes', cs' := Pruned(tree, leaf, id).nodes, cs - {id};
    forall x, d ensures Owns(nodes', cs', x, d) {
      assert Owns(tree.nodes, cs, x, d);
    }
    forall d | d in cs' ensures Sits(nodes', place, cs'[d], d) {
      assert Sits(tree.nodes, place, cs[d], d);
    }
    forall x | x in nodes' ensures Distinct(nodes'[x].clusters) {
      assert Distinct(tree.nodes[x].clusters);
    }
    forall x, d | x in tree.nodes ensures d in nodes'[x].clusters <==> d in tree.nodes[x].clusters && d != id {
      assert Owns(tree.nodes, cs, x, d);
    }
  }

  /** Leaves and histories depend on the data of the clusters, not on their links. */
  lemma SameDataKeeps(tree: Tree, place: map<NodeId, Place>, cs: map<Id, Cluster>, cs': map<Id, Cluster>,
                      msgs: map<Id, seq<seq<Token>>>, weights: map<Id, seq<int>>)
    requires SameData(cs', cs)
    requires Leaves(tree.nodes, place, cs) && History(cs, msgs, weights)
    ensures Leaves(tree.nodes, place, cs') && History(cs', msgs, weights)
  {
    forall c | c in cs' ensures Sits(tree.nodes, place, cs'[c], c) && Told(cs'[c], msgs, weights, c) {
      assert Sits(tree.nodes, place, cs[c], c) && Told(cs[c], msgs, weights, c);
    }
    forall x, c ensures Owns(tree.nodes, cs', x, c) {
      assert Owns(tree.nodes, cs, x, c);
    }
  }

  /** The template is the least general one of its messages, Size is the sum of its weights. */
  ghost predicate Told(c: Cluster, msgs: map<Id, seq<seq<Token>>>, weights: map<Id, seq<int>>, id: Id) {
    id in msgs && id in weights && IsLgg(c.Tokens, msgs[id]) && c.Size == Sum(weights[id])
  }

  ghost predicate History(cs: map<Id, Cluster>, msgs: map<Id, seq<seq<Token>>>, weights: map<Id, seq<int>>) {
    forall c {:trigger Told(cs[c], msgs, weights, c)} :: c in cs ==> Told(cs[c], msgs, weights, c)
  }

  lemma KnownWeights(cs: map<Id, Cluster>, msgs: map<Id, seq<seq<Token>>>, weights: map<Id, seq<int>>, id: Id)
    requires History(cs, msgs, weights) && id in cs
    ensures id in msgs && id in weights
  {
    assert Told(cs[id], msgs, weights, id);
  }

  lemma HistoryWith(cs: map<Id, Cluster>, msgs: map<Id, seq<seq<Token>>>, weights: map<Id, seq<int>>, id: Id, c: Cluster)
    requires History(cs, msgs, weights)
    ensures History(cs[id := c], msgs[id := [c.Tokens]], weights[id := [c.Size]])
  {
    var cs', msgs', weights' := cs[id := c], msgs[id := [c.Tokens]], weights[id := [c.Size]];
    forall d | d in cs' ensures Told(cs'[d], msgs', weights', d) {
      assert d != id ==> Told(cs[d], msgs, weights, d);
      LggOfOne(c.Tokens);
    }
  }

  /** The list holds exactly the clusters of the id map, and ids are handed out upwards. */
  ghost predicate Index(order: seq<Id>, cs: map<Id, Cluster>, nextID: int) {
    && (forall c :: c in order <==> c in cs)
    && (forall c :: c in cs ==> c <= nextID)
  }

  lemma {:induction false} SimNonNegative(tpl: seq<Token>, toks: seq<Token>)
    requires |tpl| == |toks|
    ensures Sim(tpl, toks) >= 0.0
  {
    if |tpl| > 0 {
      assert SameUpTo(tpl, toks, |tpl|) as real / |tpl| as real >= 0.0;
    }
  }

  /** The first cap elements of a list, or all of it when there is no cap. */
  function Kept(order: seq<Id>, cap: int): seq<Id> {
    if 0 < cap < |order| then order[..cap] else order
  }

  predicate SameTemplate(a: Cluster, b: Cluster) {
    a.Tokens == b.Tokens && a.Size == b.Size
  }

  /** The same forest with exactly the given clusters left in its leaves. */
  ghost predicate Thinned(tree: Tree, tree': Tree, cs: map<Id, Cluster>) {
    && tree'.byLen == tree.byLen && tree'.nodes.Keys == tree.nodes.Keys
    && (forall x :: x in tree.nodes ==> tree'.nodes[x].children == tree.nodes[x].children)
    && (forall x, c {:trigger c in tree'.nodes[x].clusters} :: x in tree.nodes ==>
          (c in tree'.nodes[x].clusters <==> c in tree.nodes[x].clusters && c in cs))
  }

  lemma ThinnedAgain(tree: Tree, tree1: Tree, tree2: Tree, cs1: map<Id, Cluster>, cs2: map<Id, Cluster>)
    requires Thinned(tree, tree1, cs1) && Thinned(tree1, tree2, cs2) && cs2.Keys <= cs1.Keys
    ensures Thinned(tree, tree2, cs2)
  {
  }

  lemma ThinnedSelf(tree: Tree, place: map<NodeId, Place>, cs: map<Id, Cluster>)
    requires Leaves(tree.nodes, place, cs)
    ensures Thinned(tree, tree, cs)
  {
    forall x, c | x in tree.nodes && c in tree.nodes[x].clusters ensures c in cs {
      assert Owns(tree.nodes, cs, x, c);
    }
  }

  lemma {:induction false} SizeOfList(order: seq<Id>)
    requires Distinct(order)
    ensures |set c | c in order| == |order|
  {
    if order != [] {
      var init, last := order[..|order|-1], order[|order|-1];
      forall i, j | 0 <= i < j < |init| ensures Differ(init, i, j) {
        assert Differ(order, i, j);
      }
      SizeOfList(init);
      DistinctAt(order, |order| - 1);
      assert (set c | c in order) == (set c | c in init) + {last};
    }
  }

  lemma SizeOfIndex(order: seq<Id>, cs: map<Id, Cluster>)
    requires Distinct(order) && forall c :: c in order <==> c in cs
    ensures |cs| == |order|
  {
    SizeOfList(order);
    var ids := set c | c in order;
    assert forall c :: c in ids <==> c in cs.Keys;
    assert cs.Keys == ids;
    assert |cs.Keys| == |cs|;
  }

  lemma LastRemoved(order: seq<Id>)
    requires Distinct(order) && order != []
    ensures Remove(order, order[|order|-1]) == order[..|order|-1]
  {
    DistinctAt(order, |order| - 1);
    RemoveAt(order, |order| - 1);
  }

  /** The list without the first x, found by a scan as in a Go slice. */
  method Without(ids: seq<Id>, x: Id) returns (r: seq<Id>)
    ensures r == Remove(ids, x)
  {
    for i := 0 to |ids|
      invariant x !in ids[..i]
    {
      if ids[i] == x {
        RemoveAt(ids, i);
        return ids[..i] + ids[i+1..];
      }
    }
    RemoveAbsent(ids, x);
    r := ids;
  }

  /** Changing the data of clusters leaves the list alone. */
  lemma Relinked(order: seq<Id>, cs: map<Id, Cluster>, head: Option<Id>, tail: Option<Id>, cs': map<Id, Cluster>)
    requires Linked(order, cs, head, tail) && cs'.Keys == cs.Keys
    requires forall c :: c in cs ==> cs'[c].prev == cs[c].prev && cs'[c].next == cs[c].next
    ensures Linked(order, cs', head, tail)
  {
    forall i | 0 <= i < |order| ensures Neighbours(order, cs', i) {
      var c := order[i];
      assert Neighbours(order, cs, i) && c in cs && cs'[c].prev == cs[c].prev && cs'[c].next == cs[c].next;
    }
  }

  /** Changing template and size of cluster id, but not its token count, keeps the leaves. */
  lemma LeavesAfterMerge(tree: Tree, place: map<NodeId, Place>, cs: map<Id, Cluster>, id: Id, c: Cluster)
    requires Leaves(tree.nodes, place, cs) && id in cs && c.leaf == cs[id].leaf && |c.Tokens| == |cs[id].Tokens|
    ensures Leaves(tree.nodes, place, cs[id := c])
  {
    var cs' := cs[id := c];
    forall d | d in cs' ensures Sits(tree.nodes, place, cs'[d], d) {
      assert Sits(tree.nodes, place, cs[d], d);
    }
    forall x, d ensures Owns(tree.nodes, cs', x, d) {
      assert Owns(tree.nodes, cs, x, d);
    }
  }

  /** Merging a message into template id extends its history. */
  lemma HistoryAfterMerge(cs: map<Id, Cluster>, msgs: map<Id, seq<seq<Token>>>, weights: map<Id, seq<int>>,
                          id: Id, c: Cluster, toks: seq<Token>, n: int)
    requires History(cs, msgs, weights) && id in cs && id in msgs && id in weights && |cs[id].Tokens| == |toks|
    requires c.Tokens == Generalise(cs[id].Tokens, toks) && c.Size == cs[id].Size + n
    ensures History(cs[id := c], msgs[id := msgs[id] + [toks]], weights[id := weights[id] + [n]])
  {
    var cs', msgs', weights' := cs[id := c], msgs[id := msgs[id] + [toks]], weights[id := weights[id] + [n]];
    ToldMore(cs, msgs, weights, id, c, toks, n);
    forall d | d in cs' ensures Told(cs'[d], msgs', weights', d) {
      assert d != id ==> Told(cs[d], msgs, weights, d);
    }
  }

  lemma HistoryAfterHit(cs: map<Id, Cluster>, msgs: map<Id, seq<seq<Token>>>, weights: map<Id, seq<int>>, id: Id, n: int)
    requires History(cs, msgs, weights) && id in cs && id in weights
    ensures History(cs[id := cs[id].(Size := cs[id].Size + n)], msgs, weights[id := weights[id] + [n]])
  {
    var cs', weights' := cs[id := cs[id].(Size := cs[id].Size + n)], weights[id := weights[id] + [n]];
    forall d | d in cs' ensures Told(cs'[d], msgs, weights', d) {
      assert Told(cs[d], msgs, weights, d);
      assert d == id ==> weights'[d][..|weights[d]|] == weights[d];
    }
  }

  lemma ToldMore(cs: map<Id, Cluster>, msgs: map<Id, seq<seq<Token>>>, weights: map<Id, seq<int>>,
                 id: Id, c: Cluster, toks: seq<Token>, n: int)
    requires History(cs, msgs, weights) && id in cs && id in msgs && id in weights && |cs[id].Tokens| == |toks|
    requires c.Tokens == Generalise(cs[id].Tokens, toks) && c.Size == cs[id].Size + n
    ensures Told(c, msgs[id := msgs[id] + [toks]], weights[id := weights[id] + [n]], id)
  {
    assert Told(cs[id], msgs, weights, id);
    GeneraliseKeepsLgg(cs[id].Tokens, msgs[id], toks);
    assert (weights[id] + [n])[..|weights[id]|] == weights[id];
  }

  /** Adding a loose cluster to the id map, whose leaf already lists it. */
  lemma Adding(tree: Tree, tree': Tree, place: map<NodeId, Place>, place': map<NodeId, Place>, maxChildren: int,
               order: seq<Id>, cs: map<Id, Cluster>, head: Option<Id>, tail: Option<Id>, nextID: int,
               id: Id, c: Cluster, maxDepth: int)
    requires WellFormed(tree, place, maxChildren) && WellFormed(tree', place', maxChildren) && Leaves(tree.nodes, place, cs)
    requires Linked(order, cs, head, tail) && Index(order, cs, nextID) && id !in cs && id <= nextID
    requires c.prev == None && c.next == None && Inserted(tree, tree', place, place', c.Tokens, id, c.leaf, maxDepth)
    ensures Leaves(tree'.nodes, place', cs[id := c])
    ensures Linked(order, cs[id := c], head, tail) && Loose(id, order, cs[id := c])
    ensures Index([id] + order, cs[id := c], nextID)
  {
    LeavesAfterInsert(tree, tree', place, place', cs, id, c, maxDepth);
    var cs' := cs[id := c];
    forall i | 0 <= i < |order| ensures Neighbours(order, cs', i) {
      assert Neighbours(order, cs, i) && order[i] in cs;
    }
  }

  /** Dropping a loose cluster from the id map and from its leaf. */
  lemma Dropping(tree: Tree, place: map<NodeId, Place>, maxChildren: int, order: seq<Id>, cs: map<Id, Cluster>,
                 head: Option<Id>, tail: Option<Id>, nextID: int, id: Id)
    requires WellFormed(tree, place, maxChildren) && Leaves(tree.nodes, place, cs)
    requires Linked(order, cs, head, tail) && Loose(id, order, cs) && Index(order + [id], cs, nextID)
    ensures WellFormed(Pruned(tree, cs[id].leaf, id), place, maxChildren)
    ensures Leaves(Pruned(tree, cs[id].leaf, id).nodes, place, cs - {id})
    ensures Linked(order, cs - {id}, head, tail) && Index(order, cs - {id}, nextID)
    ensures Thinned(tree, Pruned(tree, cs[id].leaf, id), cs - {id})
  {
    assert Sits(tree.nodes, place, cs[id], id);
    LeavesAfterRemove(tree, place, cs, id);
    ThinnedSelf(tree, place, cs);
    SameShape(tree, Pruned(tree, cs[id].leaf, id), place, maxChildren);
    forall i | 0 <= i < |order| ensures Neighbours(order, cs - {id}, i) {
      assert Neighbours(order, cs, i);
    }
    forall c ensures c in order <==> c in cs - {id} {
      assert c in order + [id] <==> c in cs;
    }
  }

  /** The token loop of Add: positions where the message differs become parameters. */
  method MergeTokens(tokens: seq<Token>, toks: seq<Token>) returns (tpl: seq<Token>, ch: Change)
    requires |tokens| == |toks|
    ensures tpl == Generalise(tokens, toks) && ch == if tpl == tokens then Unchanged else Updated
  {
    tpl, ch := tokens, Unchanged;
    for i := 0 to |tokens|
      invariant |tpl| == |tokens|
      invariant forall j :: 0 <= j < |tpl| ==> tpl[j] == if j < i then Generalise(tokens, toks)[j] else tokens[j]
      invariant ch == if tpl == tokens then Unchanged else Updated
    {
      if tpl[i] != PARAM && tpl[i] != toks[i] {
        tpl := tpl[i := PARAM];
        ch := Updated;
      }
    }
  }

  /** cs' is cs after one message was merged into template id. */
  ghost predicate MergedInto(cs: map<Id, Cluster>, cs': map<Id, Cluster>, id: Id, toks: seq<Token>, n: int) {
    && id in cs && |cs[id].Tokens| == |toks| && cs'.Keys == cs.Keys
    && cs'[id].Tokens == Generalise(cs[id].Tokens, toks) && cs'[id].Size == cs[id].Size + n
    && forall c :: c in cs && c != id ==> SameTemplate(cs'[c], cs[c])
  }

  lemma LookupLive(tree: Tree, place: map<NodeId, Place>, cs: map<Id, Cluster>, toks: seq<Token>, id: Id,
                   maxDepth: int, maxChildren: int, simTh: real)
    requires WellFormed(tree, place, maxChildren) && Leaves(tree.nodes, place, cs)
    requires Lookup(tree, cs, toks, maxDepth, simTh) == Some(id)
    ensures id in cs && |cs[id].Tokens| == |toks|
  {
    LeafLen(tree, place, cs, toks, maxDepth, maxChildren);
    var ids := tree.nodes[LeafFor(tree, toks, maxDepth).value].clusters;
    ChooseNone(cs, ids, toks, simTh);
  }

  /** After a merge a lookup of the message finds the same template again. */
  lemma LookupAfterMerge(tree: Tree, place: map<NodeId, Place>, cs: map<Id, Cluster>, cs': map<Id, Cluster>,
                         toks: seq<Token>, id: Id, n: int, maxDepth: int, maxChildren: int, simTh: real)
    requires WellFormed(tree, place, maxChildren) && Leaves(tree.nodes, place, cs)
    requires MergedInto(cs, cs', id, toks, n)
    requires Lookup(tree, cs, toks, maxDepth, simTh) == Some(id)
    ensures Lookup(tree, cs', toks, maxDepth, simTh) == Some(id) && Sim(cs'[id].Tokens, toks) >= simTh
  {
    LeafLen(tree, place, cs, toks, maxDepth, maxChildren);
    var x := LeafFor(tree, toks, maxDepth).value;
    var ids := tree.nodes[x].clusters;
    assert Distinct(tree.nodes[x].clusters);
    forall i | 0 <= i < |ids|
      ensures ids[i] in cs' && cs'[ids[i]].Tokens == if ids[i] == id then Generalise(cs[ids[i]].Tokens, toks) else cs[ids[i]].Tokens
    {
      var c := ids[i];
      assert c in cs && c in cs' && (c != id ==> SameTemplate(cs'[c], cs[c]));
    }
    ChooseAfterMerge(cs, cs', ids, toks, simTh, id);
    var k := BestWins(cs', ids, toks, |ids|);
  }

  lemma {:induction false} WalkThinned(nodes: map<NodeId, Node>, nodes': map<NodeId, Node>, x: NodeId, toks: seq<Token>,
                                       depth: nat, maxDepth: int)
    requires depth >= 1 && nodes'.Keys == nodes.Keys
    requires forall y :: y in nodes ==> nodes'[y].children == nodes[y].children
    ensures Walk(nodes', x, toks, depth, maxDepth) == Walk(nodes, x, toks, depth, maxDepth)
    decreases |toks| - depth
  {
    if x in nodes && !Stop(depth, |toks|, maxDepth) {
      match Next(nodes[x], toks[depth-1])
      case None =>
      case Some(y) => WalkThinned(nodes, nodes', y, toks, depth + 1, maxDepth);
    }
  }

  /** A new template is found by a lookup of its message, or of another one that is alike and had no
      template before, if it is near enough to that; otherwise nothing is: what was in its leaf before was
      too far. */
  lemma LookupAfterCreate(tree: Tree, tree1: Tree, tree': Tree, place: map<NodeId, Place>, place': map<NodeId, Place>,
                          cs: map<Id, Cluster>, cs1: map<Id, Cluster>, cs': map<Id, Cluster>,
                          toks: seq<Token>, other: seq<Token>, id: Id, maxDepth: int, maxChildren: int, simTh: real)
    requires WellFormed(tree, place, maxChildren) && Leaves(tree.nodes, place, cs) && id !in cs
    requires Alike(toks, other, maxDepth) && Lookup(tree, cs, other, maxDepth, simTh) == None
    requires id in cs1 && Inserted(tree, tree1, place, place', toks, id, cs1[id].leaf, maxDepth)
    requires Thinned(tree1, tree', cs')
    requires WellFormed(tree', place', maxChildren) && Leaves(tree'.nodes, place', cs')
    requires id in cs' && cs'[id].Tokens == toks
    requires forall c :: c in cs' && c != id ==> c in cs && SameTemplate(cs'[c], cs[c])
    ensures Lookup(tree', cs', other, maxDepth, simTh) == if Sim(toks, other) >= simTh then Some(id) else None
  {
    hide Alike, Sim, Walk;
    var leaf := cs1[id].leaf;
    LeafAlike(tree, place, toks, other, maxDepth, maxChildren);
    LeafAlike(tree', place', toks, other, maxDepth, maxChildren);
    SameLengths(toks, other, maxDepth);
    WalkThinned(tree1.nodes, tree'.nodes, tree1.byLen[|toks|], toks, 1, maxDepth);
    assert LeafFor(tree', toks, maxDepth) == Some(leaf);
    LeafLen(tree', place', cs', other, maxDepth, maxChildren);
    var ids := tree'.nodes[leaf].clusters;
    assert Distinct(tree'.nodes[leaf].clusters);
    assert id in tree1.nodes[leaf].clusters && id in tree'.nodes[leaf].clusters;
    if leaf in tree.nodes {
      LeafLen(tree, place, cs, other, maxDepth, maxChildren);
      ChooseNone(cs, tree.nodes[leaf].clusters, other, simTh);
    }
    forall i | 0 <= i < |ids| && ids[i] != id ensures Sim(cs'[ids[i]].Tokens, other) < simTh {
      var c := ids[i];
      assert c in tree'.nodes[leaf].clusters && c in tree1.nodes[leaf].clusters;
      assert leaf in tree.nodes && c in tree.nodes[leaf].clusters;
      var j :| 0 <= j < |tree.nodes[leaf].clusters| && tree.nodes[leaf].clusters[j] == c;
      assert SameTemplate(cs'[c], cs[c]);
    }
    ChooseAfterCreate(cs', ids, other, simTh, id);
  }

  lemma SameLengths(a: seq<Token>, b: seq<Token>, maxDepth: int)
    requires Alike(a, b, maxDepth)
    ensures |a| == |b|
  {
  }

  lemma AlikeSelf(a: seq<Token>, maxDepth: int)
    ensures Alike(a, a, maxDepth)
  {
  }

  /** A message that is alike and had no template before finds the new one exactly if it is near enough. */
  ghost predicate Shares(tree: Tree, cs: map<Id, Cluster>, tree': Tree, cs': map<Id, Cluster>, toks: seq<Token>, id: Id,
                         maxDepth: int, simTh: real, other: seq<Token>)
  {
    Alike(toks, other, maxDepth) && Lookup(tree, cs, other, maxDepth, simTh) == None ==>
      |toks| == |other| && Lookup(tree', cs', other, maxDepth, simTh) == if Sim(toks, other) >= simTh then Some(id) else None
  }

  class Miner {
    const maxNodeDepth: int
    const simTh: real
    const maxChildren: int
    const maxClusters: int
    var tree: Tree
    var clusters: map<Id, Cluster>
    var nextID: int
    var head: Option<Id>
    var tail: Option<Id>
    var evicted: int
    /** The list from head to tail, the shape of the forest, and per cluster every message added
        and every weight counted so far. */
    ghost var order: seq<Id>
    ghost var place: map<NodeId, Place>
    ghost var msgs: map<Id, seq<seq<Token>>>
    ghost var weights: map<Id, seq<int>>

    ghost predicate Lru()
      reads this
    {
      Linked(order, clusters, head, tail)
    }

    ghost predicate Valid()
      reads this
    {
      && maxNodeDepth >= 1 && WellFormed(tree, place, maxChildren)
      && Lru() && Index(order, clusters, nextID)
      && Leaves(tree.nodes, place, clusters) && History(clusters, msgs, weights)
    }

    constructor (depth: int, simTh: real, maxChildren: int, maxClusters: int)
      ensures Valid() && order == [] && nextID == 0 && evicted == 0
      ensures this.simTh == simTh && this.maxClusters == maxClusters
      ensures maxNodeDepth == (if depth > 3 then depth - 2 else 1) && this.maxChildren == if maxChildren > 2 then maxChildren else 2
    {
      maxNodeDepth := (if depth < 3 then 3 else depth) - 2;
      this.maxChildren := if maxChildren < 2 then 2 else maxChildren;
      this.simTh, this.maxClusters := simTh, maxClusters;
      tree, clusters, nextID, head, tail, evicted := Tree(map[], map[], 0), map[], 0, None, None, 0;
      order, place, msgs, weights := [], map[], map[], map[];
    }

    // --- the LRU list -----------------------------------------------------------------------------

    method Unlink(id: Id)
      requires Lru() && (id in order || Loose(id, order, clusters))
      modifies `clusters, `head, `tail, `order
      ensures Lru() && order == Remove(old(order), id) && Loose(id, order, clusters)
      ensures forall c :: c in order <==> c in old(order) && c != id
      ensures SameData(clusters, old(clusters))
    {
      ghost var k := if id in order then IndexOf(order, id) else 0;
      if id in order {
        assert Neighbours(order, clusters, k);
        assert k > 0 ==> Neighbours(order, clusters, k - 1);
        assert k < |order| - 1 ==> Neighbours(order, clusters, k + 1);
        DistinctAt(order, k);
        RemoveProps(order, k);
      }
      var cs, c := clusters, clusters[id];
      if c.prev != None {
        cs := cs[c.prev.value := cs[c.prev.value].(next := c.next)];
      }
      if c.next != None {
        cs := cs[c.next.value := cs[c.next.value].(prev := c.prev)];
      }
      cs := cs[id := c.(prev := None, next := None)];
      if id in order {
        LinkedWithout(order, clusters, head, tail, k, Remove(order, id), cs);
      } else {
        RemoveAbsent(order, id);
        assert cs == clusters;
      }
      clusters, order := cs, Remove(order, id);
      head := if head == Some(id) then c.next else head;
      tail := if tail == Some(id) then c.prev else tail;
    }

    /** Moves a cluster to the front, or puts a loose one there. */
    method Touch(id: Id)
      requires Lru() && (id in order || Loose(id, order, clusters))
      modifies `clusters, `head, `tail, `order
      ensures Lru() && order == [id] + Remove(old(order), id)
      ensures forall c :: c in order <==> c in old(order) || c == id
      ensures SameData(clusters, old(clusters))
    {
      if head == Some(id) {
        assert order == [id] + Remove(order, id);
        return;
      }
      Unlink(id);
      assert order != [] ==> Neighbours(order, clusters, 0);
      var cs := clusters[id := clusters[id].(next := head)];
      if head != None {
        cs := cs[head.value := cs[head.value].(prev := Some(id))];
      }
      LinkedWith(order, clusters, head, tail, id, cs);
      clusters, head, order := cs, Some(id), [id] + order;
      if tail == None {
        tail := Some(id);
      }
    }

    /** Every template, most recently used first, by following the links from head. */
    method List() returns (ids: seq<Id>)
      requires Valid()
      ensures ids == order && Distinct(ids) && |ids| == |clusters|
    {
      ids := [];
      var c := head;
      while c != None
        invariant |ids| <= |order| && ids == order[..|ids|] && c == At(order, |ids|)
        decreases |order| - |ids|
      {
        assert Neighbours(order, clusters, |ids|);
        ids := ids + [c.value];
        c := clusters[c.value].next;
      }
      SizeOfIndex(order, clusters);
    }

    // --- search -------------------------------------------------------------------------------------

    method Search(toks: seq<Token>) returns (best: Option<Id>)
      requires Valid()
      ensures best == Lookup(tree, clusters, toks, maxNodeDepth, simTh)
    {
      var n := |toks|;
      if n !in tree.byLen {
        return None;
      }
      var cur, depth := tree.byLen[n], 1;
      while depth < maxNodeDepth && depth < n
        invariant 1 <= depth && cur in tree.nodes
        invariant Walk(tree.nodes, cur, toks, depth, maxNodeDepth) == LeafFor(tree, toks, maxNodeDepth)
      {
        var t, kids := toks[depth-1], tree.nodes[cur].children;
        if t in kids {
          cur := kids[t];
        } else if PARAM in kids {
          cur := kids[PARAM];
        } else {
          return None;
        }
        depth := depth + 1;
      }
      LeafLen(tree, place, clusters, toks, maxNodeDepth, maxChildren);
      var ids := tree.nodes[cur].clusters;
      var bestSim: real, bestParams: int := -1.0, -1;
      best := None;
      for i := 0 to |ids|
        invariant best == Best(clusters, ids, toks, i)
        invariant if best == None then bestSim == -1.0
                  else bestSim == Sim(clusters[best.value].Tokens, toks) && bestParams == Params(clusters[best.value].Tokens)
      {
        var sim, params := SeqDistance(clusters[ids[i]].Tokens, toks);
        SimNonNegative(clusters[ids[i]].Tokens, toks);
        if sim > bestSim || (sim == bestSim && params > bestParams) {
          best, bestSim, bestParams := Some(ids[i]), sim, params;
        }
      }
      if best != None && bestSim < simTh {
        best := None;
      }
    }

    // --- eviction -----------------------------------------------------------------------------------

    /** Drops the least recently touched clusters until the cap holds. */
    method Evict()
      requires Valid()
      modifies `tree, `clusters, `head, `tail, `order, `evicted
      ensures Valid() && order == Kept(old(order), maxClusters)
      ensures evicted == old(evicted) + |old(order)| - |order|
      ensures forall c :: c in clusters ==> c in old(clusters) && SameTemplate(clusters[c], old(clusters)[c])
      ensures Thinned(old(tree), tree, clusters)
    {
      hide WellFormed, Leaves, History, Thinned;
      ghost var t0, cs0 := tree, clusters;
      SizeOfIndex(order, clusters);
      ThinnedSelf(tree, place, clusters);
      while maxClusters > 0 && |clusters| > maxClusters
        invariant Valid() && |clusters| == |order| <= |old(order)|
        invariant order == old(order)[..|order|] && (|order| == |old(order)| || |order| >= maxClusters > 0)
        invariant evicted == old(evicted) + |old(order)| - |order|
        invariant forall c :: c in clusters ==> c in cs0 && SameTemplate(clusters[c], cs0[c])
        invariant Thinned(t0, tree, clusters)
        decreases |clusters|
      {
        ghost var t1, cs1 := tree, clusters;
        EvictOne();
        ThinnedAgain(t0, t1, tree, cs1, clusters);
        SizeOfIndex(order, clusters);
      }
    }

    method EvictOne()
      requires Valid() && order != []
      modifies `tree, `clusters, `head, `tail, `order, `evicted
      ensures Valid() && order == old(order)[..|old(order)|-1] && evicted == old(evicted) + 1
      ensures clusters.Keys == old(clusters).Keys - {old(order)[|old(order)|-1]}
      ensures forall c :: c in clusters ==> SameTemplate(clusters[c], old(clusters)[c])
      ensures Thinned(old(tree), tree, clusters)
    {
      hide WellFormed, Leaves, History, Thinned, Remove;
      evicted := evicted + 1;
      ghost var was, cs0 := order, clusters;
      var id := tail.value;
      LastRemoved(was);
      Unlink(id);
      SameDataKeeps(tree, place, cs0, clusters, msgs, weights);
      assert order + [id] == was;
      Drop(id);
    }

    /** Takes a cluster without links out of its leaf and out of the id map. */
    method Drop(id: Id)
      requires maxNodeDepth >= 1 && WellFormed(tree, place, maxChildren) && Lru() && Loose(id, order, clusters)
      requires Index(order + [id], clusters, nextID)
      requires Leaves(tree.nodes, place, clusters) && History(clusters, msgs, weights)
      modifies `tree, `clusters
      ensures Valid() && clusters == old(clusters) - {id} && Thinned(old(tree), tree, clusters)
    {
      Dropping(tree, place, maxChildren, order, clusters, head, tail, nextID, id);
      assert Sits(tree.nodes, place, clusters[id], id);
      var leaf := clusters[id].leaf;
      var ids := Without(tree.nodes[leaf].clusters, id);
      tree := tree.(nodes := tree.nodes[leaf := tree.nodes[leaf].(clusters := ids)]);
      clusters := clusters - {id};
    }

    // --- adding, hitting, restoring -------------------------------------------------------------------

    /** Puts a new cluster into the id map, its leaf and the front of the list. */
    method Put(id: Id, toks: seq<Token>, size: int)
      requires Valid() && id !in clusters && id <= nextID
      modifies `tree, `clusters, `head, `tail, `order, `place, `msgs, `weights
      ensures Valid() && order == [id] + old(order)
      ensures clusters.Keys == old(clusters).Keys + {id}
      ensures clusters[id].Tokens == toks && clusters[id].Size == size
      ensures msgs == old(msgs)[id := [toks]] && weights == old(weights)[id := [size]]
      ensures forall c :: c in old(clusters) ==> SameTemplate(clusters[c], old(clusters)[c])
      ensures Inserted(old(tree), tree, old(place), place, toks, id, clusters[id].leaf, maxNodeDepth)
    {
      hide WellFormed, Leaves, History, Inserted, Linked, Remove;
      Hang(id, toks, size);
      ghost var was, cs := order, clusters;
      Touch(id);
      RemoveAbsent(was, id);
      SameDataKeeps(tree, place, cs, clusters, msgs, weights);
    }

    /** Puts a new cluster into the id map and its leaf, but not yet into the list. */
    method Hang(id: Id, toks: seq<Token>, size: int)
      requires Valid() && id !in clusters && id <= nextID
      modifies `tree, `clusters, `place, `msgs, `weights
      ensures WellFormed(tree, place, maxChildren) && Lru() && Index([id] + order, clusters, nextID)
      ensures Leaves(tree.nodes, place, clusters) && History(clusters, msgs, weights)
      ensures id in clusters && Loose(id, order, clusters) && clusters[id].Tokens == toks && clusters[id].Size == size
      ensures clusters == old(clusters)[id := clusters[id]]
      ensures msgs == old(msgs)[id := [toks]] && weights == old(weights)[id := [size]]
      ensures Inserted(old(tree), tree, old(place), place, toks, id, clusters[id].leaf, maxNodeDepth)
    {
      ghost var pl;
      var t, leaf;
      t, pl, leaf := Insert(tree, place, toks, id, maxNodeDepth, maxChildren);
      var c := Cluster(toks, size, leaf, None, None);
      Adding(tree, t, place, pl, maxChildren, order, clusters, head, tail, nextID, id, c, maxNodeDepth);
      HistoryWith(clusters, msgs, weights, id, c);
      tree, place, clusters := t, pl, clusters[id := c];
      msgs, weights := msgs[id := [toks]], weights[id := [size]];
    }

    /** Merges a message into template id, in place. */
    method Merge(id: Id, toks: seq<Token>, n: int) returns (ch: Change)
      requires Valid() && id in clusters && |clusters[id].Tokens| == |toks| && id in msgs && id in weights
      modifies `clusters, `msgs, `weights
      ensures Valid() && MergedInto(old(clusters), clusters, id, toks, n)
      ensures forall c :: c in clusters ==> clusters[c].leaf == old(clusters)[c].leaf
      ensures msgs == old(msgs)[id := old(msgs)[id] + [toks]] && weights == old(weights)[id := old(weights)[id] + [n]]
      ensures ch == if clusters[id].Tokens == old(clusters)[id].Tokens then Unchanged else Updated
    {
      var tpl;
      tpl, ch := MergeTokens(clusters[id].Tokens, toks);
      var c := clusters[id].(Tokens := tpl, Size := clusters[id].Size + n);
      LeavesAfterMerge(tree, place, clusters, id, c);
      HistoryAfterMerge(clusters, msgs, weights, id, c, toks, n);
      Relinked(order, clusters, head, tail, clusters[id := c]);
      msgs, weights := msgs[id := msgs[id] + [toks]], weights[id := weights[id] + [n]];
      clusters := clusters[id := c];
    }

    /** Moves a live template to the front of the list. */
    method Bump(id: Id)
      requires Valid() && id in clusters
      modifies `clusters, `head, `tail, `order
      ensures Valid() && order == [id] + Remove(old(order), id) && SameData(clusters, old(clusters))
    {
      ghost var cs := clusters;
      Touch(id);
      SameDataKeeps(tree, place, cs, clusters, msgs, weights);
    }

    /** Add, when no live template is near enough: a new template, then eviction. */
    method Create(toks: seq<Token>, n: int) returns (id: Id)
      requires Valid() && Lookup(tree, clusters, toks, maxNodeDepth, simTh) == None
      modifies this
      ensures Valid()
      ensures id == nextID == old(nextID) + 1 && order == Kept([id] + old(order), maxClusters)
      ensures evicted == old(evicted) + |old(order)| + 1 - |order|
      ensures id in clusters && clusters[id].Tokens == toks && clusters[id].Size == n
      ensures msgs == old(msgs)[id := [toks]] && weights == old(weights)[id := [n]]
      ensures forall c :: c in clusters && c != id ==> c in old(clusters) && SameTemplate(clusters[c], old(clusters)[c])
      ensures Lookup(tree, clusters, toks, maxNodeDepth, simTh) == if Sim(toks, toks) >= simTh then Some(id) else None
      ensures forall other :: Shares(old(tree), old(clusters), tree, clusters, toks, id, maxNodeDepth, simTh, other)
    {
      hide Lookup, Sim, Inserted, Thinned, Sum, WellFormed, Leaves, History, Linked, Alike;
      id := nextID + 1;
      nextID := id;
      Put(id, toks, n);
      ghost var tree1, cs1 := tree, clusters;
      Evict();
      assert order[0] == id;
      AlikeSelf(toks, maxNodeDepth);
      forall other ensures Shares(old(tree), old(clusters), tree, clusters, toks, id, maxNodeDepth, simTh, other) {
        if Alike(toks, other, maxNodeDepth) && Lookup(old(tree), old(clusters), other, maxNodeDepth, simTh) == None {
          SameLengths(toks, other, maxNodeDepth);
          LookupAfterCreate(old(tree), tree1, tree, old(place), place, old(clusters), cs1, clusters, toks, other, id,
                            maxNodeDepth, maxChildren, simTh);
        }
      }
      assert Shares(old(tree), old(clusters), tree, clusters, toks, id, maxNodeDepth, simTh, toks);
    }

    /** Add, when template id is near enough: the message is merged into it. */
    method AddTo(id: Id, toks: seq<Token>, n: int) returns (ch: Change)
      requires Valid() && Lookup(tree, clusters, toks, maxNodeDepth, simTh) == Some(id)
      modifies `clusters, `head, `tail, `order, `msgs, `weights
      ensures Valid() && order == [id] + Remove(old(order), id)
      ensures MergedInto(old(clusters), clusters, id, toks, n) && id in old(msgs) && id in old(weights)
      ensures msgs == old(msgs)[id := old(msgs)[id] + [toks]] && weights == old(weights)[id := old(weights)[id] + [n]]
      ensures ch == if clusters[id].Tokens == old(clusters)[id].Tokens then Unchanged else Updated
      ensures Lookup(tree, clusters, toks, maxNodeDepth, simTh) == Some(id) && Sim(clusters[id].Tokens, toks) >= simTh
    {
      LookupLive(tree, place, clusters, toks, id, maxNodeDepth, maxChildren, simTh);
      assert Told(clusters[id], msgs, weights, id);
      ch := Merge(id, toks, n);
      Bump(id);
      LookupAfterMerge(tree, place, old(clusters), clusters, toks, id, n, maxNodeDepth, maxChildren, simTh);
    }

    /** Adds a message with weight n: it joins the nearest live template or starts a new one. */
    method Add(toks: seq<Token>, n: int) returns (id: Id, ch: Change)
      requires Valid()
      modifies this
      ensures Valid()
      ensures ch == Created <==> old(Lookup(tree, clusters, toks, maxNodeDepth, simTh)) == None
      ensures ch == Created ==>
        && id == nextID == old(nextID) + 1 && order == Kept([id] + old(order), maxClusters)
        && evicted == old(evicted) + |old(order)| + 1 - |order|
        && id in clusters && clusters[id].Tokens == toks && clusters[id].Size == n
        && msgs == old(msgs)[id := [toks]] && weights == old(weights)[id := [n]]
        && (forall c :: c in clusters && c != id ==> c in old(clusters) && SameTemplate(clusters[c], old(clusters)[c]))
        && forall other :: Shares(old(tree), old(clusters), tree, clusters, toks, id, maxNodeDepth, simTh, other)
      ensures ch != Created ==>
        && old(Lookup(tree, clusters, toks, maxNodeDepth, simTh)) == Some(id)
        && MergedInto(old(clusters), clusters, id, toks, n) && id in old(msgs) && id in old(weights)
        && order == [id] + Remove(old(order), id) && nextID == old(nextID) && evicted == old(evicted)
        && msgs == old(msgs)[id := old(msgs)[id] + [toks]] && weights == old(weights)[id := old(weights)[id] + [n]]
        && ch == if clusters[id].Tokens == old(clusters)[id].Tokens then Unchanged else Updated
      ensures id in clusters && |clusters[id].Tokens| == |toks|
      ensures ch != Created ==> Sim(clusters[id].Tokens, toks) >= simTh
      ensures Lookup(tree, clusters, toks, maxNodeDepth, simTh) == if Sim(clusters[id].Tokens, toks) >= simTh then Some(id) else None
    {
      var found := Search(toks);
      if found == None {
        id := Create(toks, n);
        ch := Created;
      } else {
        id := found.value;
        ch := AddTo(id, toks, n);
      }
    }

    /** Counts n more lines for a live template and marks it recently used. */
    method Hit(id: Id, n: int) returns (found: bool)
      requires Valid()
      modifies `clusters, `head, `tail, `order, `weights
      ensures Valid() && found == (id in old(clusters)) && clusters.Keys == old(clusters).Keys
      ensures order == if found then [id] + Remove(old(order), id) else old(order)
      ensures forall c :: c in clusters ==>
        clusters[c].Tokens == old(clusters)[c].Tokens && clusters[c].Size == old(clusters)[c].Size + if c == id then n else 0
      ensures found ==> id in old(weights) && weights == old(weights)[id := old(weights)[id] + [n]]
      ensures !found ==> weights == old(weights)
    {
      hide WellFormed, Leaves, Linked, Remove, Told;
      found := id in clusters;
      if found {
        KnownWeights(clusters, msgs, weights, id);
        var c := clusters[id].(Size := clusters[id].Size + n);
        LeavesAfterMerge(tree, place, clusters, id, c);
        HistoryAfterHit(clusters, msgs, weights, id, n);
        Relinked(order, clusters, head, tail, clusters[id := c]);
        weights := weights[id := weights[id] + [n]];
        clusters := clusters[id := c];
        Bump(id);
      }
    }

    /** Re-inserts a template under a known id; callers check that the id is not live. */
    method Restore(id: Id, toks: seq<Token>, size: int)
      requires Valid() && id !in clusters
      modifies this
      ensures Valid() && order == [id] + old(order) && nextID == if id > old(nextID) then id else old(nextID)
      ensures clusters.Keys == old(clusters).Keys + {id} && evicted == old(evicted)
      ensures clusters[id].Tokens == toks && clusters[id].Size == size
      ensures msgs == old(msgs)[id := [toks]] && weights == old(weights)[id := [size]]
      ensures forall c :: c in old(clusters) ==> SameTemplate(clusters[c], old(clusters)[c])
    {
      if id > nextID {
        nextID := id;
      }
      Put(id, toks, size);
    }
  }
}
