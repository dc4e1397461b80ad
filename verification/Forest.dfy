/** The prefix forest: one tree per token length, with a cap on the children of a node. Nodes are
    named by serial numbers and live in a map that insertion updates in place. */
module Forest {
  import opened Options
  import opened Sequences
  import opened Templates
  import opened Clusters

  datatype Node = Node(children: map<Token, NodeId>, clusters: seq<Id>)

  datatype Tree = Tree(byLen: map<int, NodeId>, nodes: map<NodeId, Node>, nextNode: NodeId)

  predicate HasDigit(t: Token) {
    exists i :: 0 <= i < |t| && '0' <= t[i] <= '9'
  }

  const DIGITS: string := "0123456789"

  predicate Digitless(t: Token) {
    forall c :: c in t ==> c !in DIGITS
  }

  lemma HasDigitIs(t: Token)
    ensures HasDigit(t) <==> !Digitless(t)
  {
    if i :| 0 <= i < |t| && '0' <= t[i] <= '9' {
      assert DIGITS[t[i] as int - 48] == t[i];
      assert t[i] in DIGITS;
    }
    if c :| c in t && c in DIGITS {
      var i :| 0 <= i < |t| && t[i] == c;
      var j :| 0 <= j < |DIGITS| && DIGITS[j] == c;
      assert '0' <= t[i] <= '9';
    }
  }

  // --- the prefix forest --------------------------------------------------------------------------

  /** Where a node hangs: token length of its tree, distance from the root, parent and key. */
  datatype Place = Place(len: int, depth: int, up: Option<NodeId>, key: Token)

  /** Downwards, the nodes form trees, one per token length. */
  ghost predicate Downwards(byLen: map<int, NodeId>, nodes: map<NodeId, Node>, place: map<NodeId, Place>) {
    && nodes.Keys == place.Keys
    && (forall n :: n in byLen ==> byLen[n] in nodes && place[byLen[n]] == Place(n, 1, None, ""))
    && (forall x, t :: x in nodes && t in nodes[x].children ==>
          var y := nodes[x].children[t];
          y in nodes && place[y] == Place(place[x].len, place[x].depth + 1, Some(x), t))
  }

  /** Upwards, a node hangs from the length map or from its parent's child map. */
  ghost predicate Hangs(byLen: map<int, NodeId>, nodes: map<NodeId, Node>, at: Place, x: NodeId) {
    match at.up
    case None => at.len in byLen && byLen[at.len] == x
    case Some(u) => u in nodes && at.key in nodes[u].children && nodes[u].children[at.key] == x
  }

  ghost predicate Upwards(byLen: map<int, NodeId>, nodes: map<NodeId, Node>, place: map<NodeId, Place>) {
    forall x {:trigger Hangs(byLen, nodes, place[x], x)} :: x in nodes && x in place ==> Hangs(byLen, nodes, place[x], x)
  }

  /** A node does not exceed the fan-out cap, and a full node has a parameter child. */
  ghost predicate Capped(x: Node, maxChildren: int) {
    |x.children| <= maxChildren && (|x.children| == maxChildren ==> PARAM in x.children)
  }

  /** No child hangs under a token with a digit. */
  ghost predicate Keyed(x: Node) {
    forall t :: t in x.children ==> Digitless(t)
  }

  ghost predicate FanOut(nodes: map<NodeId, Node>, maxChildren: int) {
    forall x {:trigger Capped(nodes[x], maxChildren)} :: x in nodes ==> Capped(nodes[x], maxChildren) && Keyed(nodes[x])
  }

  /** Is there room for one more child besides the parameter child? */
  predicate Room(x: Node, maxChildren: int) {
    |x.children| + (if PARAM in x.children then 0 else 1) < maxChildren
  }

  ghost predicate WellFormed(tree: Tree, place: map<NodeId, Place>, maxChildren: int) {
    && maxChildren >= 2
    && Downwards(tree.byLen, tree.nodes, place) && Upwards(tree.byLen, tree.nodes, place)
    && FanOut(tree.nodes, maxChildren)
    && forall x :: x in tree.nodes ==> x < tree.nextNode
  }

  /** Cluster c is in its own leaf, in the tree of its token length. */
  ghost predicate Sits(nodes: map<NodeId, Node>, place: map<NodeId, Place>, c: Cluster, id: Id) {
    c.leaf in nodes && c.leaf in place && place[c.leaf].len == |c.Tokens| && id in nodes[c.leaf].clusters
  }

  /** A cluster that node x lists is a cluster of the id map, and x is its leaf. */
  ghost predicate Owns(nodes: map<NodeId, Node>, cs: map<Id, Cluster>, x: NodeId, id: Id) {
    x in nodes && id in nodes[x].clusters ==> id in cs && cs[id].leaf == x
  }

  /** Each cluster sits exactly once, in its own leaf, in the tree of its token length. */
  ghost predicate Leaves(nodes: map<NodeId, Node>, place: map<NodeId, Place>, cs: map<Id, Cluster>) {
    && (forall c {:trigger Sits(nodes, place, cs[c], c)} :: c in cs ==> Sits(nodes, place, cs[c], c))
    && (forall x, c {:trigger Owns(nodes, cs, x, c)} :: Owns(nodes, cs, x, c))
    && (forall x {:trigger Distinct(nodes[x].clusters)} :: x in nodes ==> Distinct(nodes[x].clusters))
  }

  /** Where a lookup goes from a node on a token. */
  ghost function Next(x: Node, t: Token): Option<NodeId> {
    if t in x.children then Some(x.children[t])
    else if PARAM in x.children then Some(x.children[PARAM]) else None
  }

  predicate Stop(depth: int, n: nat, maxDepth: int) {
    depth >= maxDepth || depth >= n
  }

  /** The node a lookup of toks reaches from x, or None at a dead end. */
  ghost function Walk(nodes: map<NodeId, Node>, x: NodeId, toks: seq<Token>, depth: nat, maxDepth: int): Option<NodeId>
    requires depth >= 1
    decreases |toks| - depth
  {
    if x !in nodes then None
    else if Stop(depth, |toks|, maxDepth) then Some(x)
    else match Next(nodes[x], toks[depth-1])
      case None => None
      case Some(y) => Walk(nodes, y, toks, depth + 1, maxDepth)
  }

  ghost function LeafFor(tree: Tree, toks: seq<Token>, maxDepth: int): Option<NodeId> {
    if |toks| in tree.byLen then Walk(tree.nodes, tree.byLen[|toks|], toks, 1, maxDepth) else None
  }

  lemma {:induction false} WalkLen(byLen: map<int, NodeId>, nodes: map<NodeId, Node>, place: map<NodeId, Place>,
                                   x: NodeId, toks: seq<Token>, depth: nat, maxDepth: int)
    requires Downwards(byLen, nodes, place) && x in nodes && depth >= 1
    ensures match Walk(nodes, x, toks, depth, maxDepth)
            case None => true
            case Some(y) => y in nodes && place[y].len == place[x].len
    decreases |toks| - depth
  {
    if !Stop(depth, |toks|, maxDepth) {
      match Next(nodes[x], toks[depth-1])
      case None =>
      case Some(y) => WalkLen(byLen, nodes, place, y, toks, depth + 1, maxDepth);
    }
  }

  /** A search looks at one word for each level, down to the depth limit or to the last word but one, and goes by that
      word wherever it can: the node it reaches hangs that deep, under the last word looked at or under the parameter
      mark, and under the mark only where its parent has no child for the word. */
  lemma {:induction false} WalkDepth(byLen: map<int, NodeId>, nodes: map<NodeId, Node>, place: map<NodeId, Place>, x: NodeId,
                                     toks: seq<Token>, depth: nat, maxDepth: int)
    requires Downwards(byLen, nodes, place) && x in nodes && place[x].depth == depth >= 1
    ensures match Walk(nodes, x, toks, depth, maxDepth)
            case None => true
            case Some(y) =>
              && y in nodes && (y == x || depth < place[y].depth <= |toks|)
              && place[y].depth == (if depth >= maxDepth || depth >= |toks| then depth else if maxDepth < |toks| then maxDepth else |toks|)
              && (y != x ==> place[y].up.Some? && place[y].up.value in nodes
                             && var kids, t := nodes[place[y].up.value].children, toks[place[y].depth-2];
                                place[y].key == if t in kids then t else PARAM)
    decreases |toks| - depth
  {
    if !Stop(depth, |toks|, maxDepth) {
      match Next(nodes[x], toks[depth-1])
      case None =>
      case Some(y) => WalkDepth(byLen, nodes, place, y, toks, depth + 1, maxDepth);
    }
  }

  // --- messages that no search tells apart ----------------------------------------------------------

  /** Two words are alike if they are equal or both have a digit. */
  predicate AlikeWords(a: Token, b: Token) {
    a == b || (!Digitless(a) && !Digitless(b))
  }

  /** Two messages are alike if they are equally long and alike in all words that a search looks at: those before
      the depth limit, but not the last one. */
  predicate Alike(a: seq<Token>, b: seq<Token>, maxDepth: int) {
    |a| == |b| && forall i {:trigger AlikeWords(a[i], b[i])} :: 0 <= i < |a| - 1 && i < maxDepth - 1 ==> AlikeWords(a[i], b[i])
  }

  lemma {:induction false} WalkAlike(nodes: map<NodeId, Node>, x: NodeId, a: seq<Token>, b: seq<Token>, depth: nat,
                                     maxDepth: int, maxChildren: int)
    requires FanOut(nodes, maxChildren) && Alike(a, b, maxDepth) && depth >= 1
    ensures Walk(nodes, x, a, depth, maxDepth) == Walk(nodes, x, b, depth, maxDepth)
    decreases |a| - depth
  {
    hide Digitless;
    if x in nodes && !Stop(depth, |a|, maxDepth) {
      assert Capped(nodes[x], maxChildren) && Keyed(nodes[x]);
      assert AlikeWords(a[depth-1], b[depth-1]);
      match Next(nodes[x], a[depth-1])
      case None =>
      case Some(y) => WalkAlike(nodes, y, a, b, depth + 1, maxDepth, maxChildren);
    }
  }

  /** Whatever was inserted before, alike messages lead to the same leaf or nowhere. */
  lemma LeafAlike(tree: Tree, place: map<NodeId, Place>, a: seq<Token>, b: seq<Token>, maxDepth: int, maxChildren: int)
    requires WellFormed(tree, place, maxChildren) && Alike(a, b, maxDepth)
    ensures LeafFor(tree, a, maxDepth) == LeafFor(tree, b, maxDepth)
  {
    if |a| in tree.byLen {
      WalkAlike(tree.nodes, tree.byLen[|a|], a, b, 1, maxDepth, maxChildren);
    }
  }

  /** trail is a path of lookup steps on toks. */
  ghost predicate Trail(nodes: map<NodeId, Node>, trail: seq<NodeId>, toks: seq<Token>, maxDepth: int) {
    && |trail| >= 1 && (|trail| > 1 ==> !Stop(|trail| - 1, |toks|, maxDepth))
    && (forall i :: 0 <= i < |trail| ==> trail[i] in nodes)
    && forall i {:trigger StepAt(nodes, trail, toks, i)} :: 0 <= i < |trail| - 1 ==> StepAt(nodes, trail, toks, i)
  }

  ghost predicate StepAt(nodes: map<NodeId, Node>, trail: seq<NodeId>, toks: seq<Token>, i: nat)
    requires i < |trail| - 1 && i < |toks|
  {
    trail[i] in nodes && Next(nodes[trail[i]], toks[i]) == Some(trail[i+1])
  }

  /** A path of lookup steps from a root leads where the lookup goes. */
  lemma {:induction false} WalkTrail(nodes: map<NodeId, Node>, trail: seq<NodeId>, toks: seq<Token>, j: nat, maxDepth: int)
    requires Trail(nodes, trail, toks, maxDepth) && j < |trail| && Stop(|trail|, |toks|, maxDepth)
    ensures Walk(nodes, trail[j], toks, j + 1, maxDepth) == Some(trail[|trail|-1])
    decreases |trail| - j
  {
    if j < |trail| - 1 {
      assert StepAt(nodes, trail, toks, j);
      WalkTrail(nodes, trail, toks, j + 1, maxDepth);
    }
  }

  /** Either nothing changed, or cur got a new, empty child. */
  ghost predicate Grew(tree: Tree, tree': Tree, place: map<NodeId, Place>, place': map<NodeId, Place>, cur: NodeId, next: NodeId) {
    if next in tree.nodes then tree' == tree && place' == place
    else
      && tree'.byLen == tree.byLen && tree'.nodes.Keys == tree.nodes.Keys + {next}
      && tree'.nodes[next] == Node(map[], [])
      && (forall x :: x in tree.nodes && x != cur ==> tree'.nodes[x] == tree.nodes[x])
      && (cur in tree.nodes ==> tree'.nodes[cur].clusters == tree.nodes[cur].clusters)
      && (forall x :: x in place ==> x in place' && place'[x] == place[x])
  }

  /** nodes after a new empty child under key was added to cur. */
  function Grown(nodes: map<NodeId, Node>, cur: NodeId, key: Token, next: NodeId): map<NodeId, Node>
    requires cur in nodes
  {
    nodes[cur := nodes[cur].(children := nodes[cur].children[key := next])][next := Node(map[], [])]
  }

  ghost function GrownPlace(place: map<NodeId, Place>, cur: NodeId, key: Token, next: NodeId): map<NodeId, Place>
    requires cur in place
  {
    place[next := Place(place[cur].len, place[cur].depth + 1, Some(cur), key)]
  }

  lemma GrowDownwards(byLen: map<int, NodeId>, nodes: map<NodeId, Node>, place: map<NodeId, Place>,
                      cur: NodeId, key: Token, next: NodeId)
    requires Downwards(byLen, nodes, place) && cur in nodes && next !in nodes
    ensures Downwards(byLen, Grown(nodes, cur, key, next), GrownPlace(place, cur, key, next))
  {
    var ns, pl := Grown(nodes, cur, key, next), GrownPlace(place, cur, key, next);
    forall x, t | x in ns && t in ns[x].children
      ensures var y := ns[x].children[t]; y in ns && pl[y] == Place(pl[x].len, pl[x].depth + 1, Some(x), t)
    {
      assert x != next;
      if x != cur || t != key {
        assert t in nodes[x].children && ns[x].children[t] == nodes[x].children[t];
      }
    }
  }

  lemma GrowUpwards(byLen: map<int, NodeId>, nodes: map<NodeId, Node>, place: map<NodeId, Place>,
                    cur: NodeId, key: Token, next: NodeId)
    requires nodes.Keys == place.Keys && Upwards(byLen, nodes, place)
    requires cur in nodes && next !in nodes && key !in nodes[cur].children
    ensures Upwards(byLen, Grown(nodes, cur, key, next), GrownPlace(place, cur, key, next))
  {
    var ns, pl := Grown(nodes, cur, key, next), GrownPlace(place, cur, key, next);
    forall x | x in ns && x in pl ensures Hangs(byLen, ns, pl[x], x) {
      assert x != next ==> Hangs(byLen, nodes, place[x], x);
    }
  }

  lemma GrowFanOut(nodes: map<NodeId, Node>, cur: NodeId, key: Token, next: NodeId, maxChildren: int)
    requires FanOut(nodes, maxChildren) && maxChildren >= 1
    requires cur in nodes && next !in nodes && key !in nodes[cur].children && |nodes[cur].children| < maxChildren
    requires |nodes[cur].children| + 1 == maxChildren ==> key == PARAM || PARAM in nodes[cur].children
    requires Digitless(key)
    ensures FanOut(Grown(nodes, cur, key, next), maxChildren)
  {
    var kids, ns := nodes[cur].children, Grown(nodes, cur, key, next);
    assert kids[key := next].Keys == kids.Keys + {key};
    assert |kids[key := next].Keys| == |kids.Keys| + 1;
    hide Digitless;
    forall x | x in ns ensures Capped(ns[x], maxChildren) && Keyed(ns[x]) {
      assert x != next ==> Capped(nodes[x], maxChildren) && Keyed(nodes[x]);
    }
  }

  method AddChild(tree: Tree, ghost place: map<NodeId, Place>, cur: NodeId, key: Token, ghost maxChildren: int)
      returns (tree': Tree, ghost place': map<NodeId, Place>, next: NodeId)
    requires WellFormed(tree, place, maxChildren) && cur in tree.nodes && key !in tree.nodes[cur].children
    requires |tree.nodes[cur].children| < maxChildren && Digitless(key)
    requires |tree.nodes[cur].children| + 1 == maxChildren ==> key == PARAM || PARAM in tree.nodes[cur].children
    ensures WellFormed(tree', place', maxChildren) && next !in tree.nodes && Grew(tree, tree', place, place', cur, next)
    ensures tree'.nodes[cur].children == tree.nodes[cur].children[key := next]
  {
    next := tree.nextNode;
    GrowDownwards(tree.byLen, tree.nodes, place, cur, key, next);
    GrowUpwards(tree.byLen, tree.nodes, place, cur, key, next);
    GrowFanOut(tree.nodes, cur, key, next, maxChildren);
    tree' := tree.(nodes := Grown(tree.nodes, cur, key, next), nextNode := next + 1);
    place' := GrownPlace(place, cur, key, next);
  }

  /** The child of cur that a token without a child leads to, following the digit and fan-out
      rules: it gets one of its own if it has no digit and there is room, or else shares the parameter
      child. The fan-out cap leaves no other case: a full node has a parameter child. */
  method Child(tree: Tree, ghost place: map<NodeId, Place>, cur: NodeId, t: Token, maxChildren: int)
      returns (tree': Tree, ghost place': map<NodeId, Place>, next: NodeId)
    requires WellFormed(tree, place, maxChildren) && cur in tree.nodes && t !in tree.nodes[cur].children
    ensures WellFormed(tree', place', maxChildren) && Grew(tree, tree', place, place', cur, next)
    ensures cur in tree'.nodes && Next(tree'.nodes[cur], t) == Some(next)
    ensures t in tree'.nodes[cur].children <==> t == PARAM || (Digitless(t) && Room(tree.nodes[cur], maxChildren))
  {
    var kids, key := tree.nodes[cur].children, t;
    assert Capped(tree.nodes[cur], maxChildren);
    HasDigitIs(t);
    HasDigitIs(PARAM);
    if HasDigit(t) {
      if PARAM in kids {
        return tree, place, kids[PARAM];
      }
      key := PARAM;
    } else if PARAM in kids {
      if |kids| >= maxChildren {
        return tree, place, kids[PARAM];
      }
    } else if |kids| + 1 == maxChildren {
      key := PARAM;
    } else {
      assert |kids| + 1 < maxChildren;  // a fuller node would have a parameter child
    }
    tree', place', next := AddChild(tree, place, cur, key, maxChildren);
  }

  /** What an insertion leaves behind: the leaf is where lookups of toks now end, it gained id, and
      it is either new or the leaf such lookups ended at before. */
  ghost predicate Inserted(tree: Tree, tree': Tree, place: map<NodeId, Place>, place': map<NodeId, Place>,
                           toks: seq<Token>, id: Id, leaf: NodeId, maxDepth: int)
  {
    && leaf in tree'.nodes && leaf in place' && place'[leaf].len == |toks|
    && LeafFor(tree', toks, maxDepth) == Some(leaf)
    && tree'.nodes[leaf].clusters == (if leaf in tree.nodes then tree.nodes[leaf].clusters else []) + [id]
    && (leaf in tree.nodes ==> LeafFor(tree, toks, maxDepth) == Some(leaf))
    && OnlyLeaf(tree, tree', place, place', {leaf})
  }

  /** Apart from the clusters of some leaves, only new, empty nodes tell the two trees apart. */
  ghost predicate OnlyLeaf(tree: Tree, tree': Tree, place: map<NodeId, Place>, place': map<NodeId, Place>, leaves: set<NodeId>) {
    && (forall x :: x in tree.nodes ==> x in tree'.nodes)
    && (forall x :: x in tree'.nodes && x !in leaves ==>
          tree'.nodes[x].clusters == if x in tree.nodes then tree.nodes[x].clusters else [])
    && (forall x :: x in place ==> x in place' && place'[x] == place[x])
  }

  /** The path an insertion has walked so far: from the root of its token length down to cur,
      without changing anything that earlier lookups of toks met on the way to an old node. */
  ghost predicate Walked(tree: Tree, t: Tree, place: map<NodeId, Place>, pl: map<NodeId, Place>,
                         trail: seq<NodeId>, toks: seq<Token>, maxDepth: int)
  {
    && |toks| in t.byLen && Trail(t.nodes, trail, toks, maxDepth) && trail[0] == t.byLen[|toks|]
    && (forall j {:trigger trail[j]} :: 0 <= j < |trail| ==>
          trail[j] in pl && pl[trail[j]].depth == j + 1 && pl[trail[j]].len == |toks|)
    && OnlyLeaf(tree, t, place, pl, {})
    && var cur := trail[|trail|-1];
       if cur in tree.nodes then t == tree else t.nodes[cur] == Node(map[], [])
  }

  lemma WalkOn(tree: Tree, t: Tree, t': Tree, place: map<NodeId, Place>, pl: map<NodeId, Place>, pl': map<NodeId, Place>,
               trail: seq<NodeId>, next: NodeId, toks: seq<Token>, maxDepth: int)
    requires Walked(tree, t, place, pl, trail, toks, maxDepth) && !Stop(|trail|, |toks|, maxDepth)
    requires t.nodes.Keys == pl.Keys && t'.nodes.Keys == pl'.Keys
    requires var cur := trail[|trail|-1];
      && Grew(t, t', pl, pl', cur, next) && next in t'.nodes && cur in t'.nodes
      && Next(t'.nodes[cur], toks[|trail|-1]) == Some(next)
      && pl'[next].depth == pl'[cur].depth + 1 && pl'[next].len == pl'[cur].len
    ensures Walked(tree, t', place, pl', trail + [next], toks, maxDepth)
  {
    var cur, r := trail[|trail|-1], trail + [next];
    forall i | 0 <= i < |r| - 1 ensures StepAt(t'.nodes, r, toks, i) {
      if i < |trail| - 1 {
        assert StepAt(t.nodes, trail, toks, i) && r[i] == trail[i] && r[i+1] == trail[i+1];
        assert pl[trail[i]].depth == i + 1 && trail[i] != cur;
      }
    }
    forall j {:trigger r[j]} | 0 <= j < |r|
      ensures r[j] in pl' && pl'[r[j]].depth == j + 1 && pl'[r[j]].len == |toks|
    {
      assert j < |trail| ==> r[j] == trail[j];
    }
  }

  lemma NextPlace(tree: Tree, place: map<NodeId, Place>, cur: NodeId, tok: Token, maxChildren: int)
    requires WellFormed(tree, place, maxChildren) && cur in tree.nodes
    ensures tree.nodes.Keys == place.Keys
    ensures match Next(tree.nodes[cur], tok)
            case None => true
            case Some(y) => y in tree.nodes && place[y].depth == place[cur].depth + 1 && place[y].len == place[cur].len
  {
  }

  /** tree with cluster id added to leaf. */
  function Hung(tree: Tree, leaf: NodeId, id: Id): Tree
    requires leaf in tree.nodes
  {
    tree.(nodes := tree.nodes[leaf := tree.nodes[leaf].(clusters := tree.nodes[leaf].clusters + [id])])
  }

  /** The shape of a forest does not depend on the clusters of its nodes. */
  lemma SameShape(tree: Tree, tree': Tree, place: map<NodeId, Place>, maxChildren: int)
    requires WellFormed(tree, place, maxChildren)
    requires tree'.byLen == tree.byLen && tree'.nextNode == tree.nextNode && tree'.nodes.Keys == tree.nodes.Keys
    requires forall x :: x in tree.nodes ==> tree'.nodes[x].children == tree.nodes[x].children
    ensures WellFormed(tree', place, maxChildren)
  {
    forall x | x in tree'.nodes && x in place
      ensures Hangs(tree'.byLen, tree'.nodes, place[x], x) && Capped(tree'.nodes[x], maxChildren) && Keyed(tree'.nodes[x])
    {
      assert Hangs(tree.byLen, tree.nodes, place[x], x) && Capped(tree.nodes[x], maxChildren) && Keyed(tree.nodes[x]);
    }
  }

  /** Adding id to the clusters of the node the path ends at completes the insertion. */
  lemma HangLeaf(tree: Tree, t: Tree, place: map<NodeId, Place>, pl: map<NodeId, Place>,
                 trail: seq<NodeId>, toks: seq<Token>, id: Id, maxDepth: int)
    requires Walked(tree, t, place, pl, trail, toks, maxDepth) && Stop(|trail|, |toks|, maxDepth)
    requires t.nodes.Keys == pl.Keys
    ensures Inserted(tree, Hung(t, trail[|trail|-1], id), place, pl, toks, id, trail[|trail|-1], maxDepth)
  {
    var t' := Hung(t, trail[|trail|-1], id);
    forall i | 0 <= i < |trail| - 1 ensures StepAt(t'.nodes, trail, toks, i) {
      assert StepAt(t.nodes, trail, toks, i);
    }
    WalkTrail(t.nodes, trail, toks, 0, maxDepth);
    WalkTrail(t'.nodes, trail, toks, 0, maxDepth);
  }

  /** tree with a new root for token length n. */
  function Rooted(tree: Tree, n: int): Tree {
    tree.(byLen := tree.byLen[n := tree.nextNode], nodes := tree.nodes[tree.nextNode := Node(map[], [])],
          nextNode := tree.nextNode + 1)
  }

  lemma NewRootDownwards(tree: Tree, place: map<NodeId, Place>, n: int)
    requires Downwards(tree.byLen, tree.nodes, place) && tree.nextNode !in tree.nodes
    ensures Downwards(Rooted(tree, n).byLen, Rooted(tree, n).nodes, place[tree.nextNode := Place(n, 1, None, "")])
  {
    var t, pl := Rooted(tree, n), place[tree.nextNode := Place(n, 1, None, "")];
    forall x, k | x in t.nodes && k in t.nodes[x].children
      ensures var y := t.nodes[x].children[k]; y in t.nodes && pl[y] == Place(pl[x].len, pl[x].depth + 1, Some(x), k)
    {
      assert x in tree.nodes && k in tree.nodes[x].children;
    }
  }

  lemma NewRoot(tree: Tree, place: map<NodeId, Place>, n: int, maxChildren: int)
    requires WellFormed(tree, place, maxChildren) && n !in tree.byLen
    ensures WellFormed(Rooted(tree, n), place[tree.nextNode := Place(n, 1, None, "")], maxChildren)
  {
    var t, pl := Rooted(tree, n), place[tree.nextNode := Place(n, 1, None, "")];
    NewRootDownwards(tree, place, n);
    forall x | x in t.nodes && x in pl
      ensures Hangs(t.byLen, t.nodes, pl[x], x) && Capped(t.nodes[x], maxChildren) && Keyed(t.nodes[x])
    {
      assert x in tree.nodes ==>
        Hangs(tree.byLen, tree.nodes, place[x], x) && Capped(tree.nodes[x], maxChildren) && Keyed(tree.nodes[x]);
    }
  }

  lemma WalkedEnd(tree: Tree, t: Tree, place: map<NodeId, Place>, pl: map<NodeId, Place>, trail: seq<NodeId>, toks: seq<Token>,
                  maxDepth: int, maxChildren: int)
    requires WellFormed(t, pl, maxChildren) && Walked(tree, t, place, pl, trail, toks, maxDepth)
    ensures trail != [] && trail[|trail|-1] in t.nodes && t.nodes.Keys == pl.Keys
  {
    var cur := trail[|trail|-1];
    assert cur in pl;
  }

  /** One level further down, by the child that the token has or gets. */
  method Down(ghost tree: Tree, t: Tree, ghost place: map<NodeId, Place>, ghost pl: map<NodeId, Place>, ghost trail: seq<NodeId>,
              cur: NodeId, toks: seq<Token>, depth: nat, ghost maxDepth: int, maxChildren: int)
      returns (t': Tree, ghost pl': map<NodeId, Place>, next: NodeId)
    requires WellFormed(t, pl, maxChildren) && Walked(tree, t, place, pl, trail, toks, maxDepth)
    requires depth == |trail| && trail[depth-1] == cur && depth < maxDepth && depth < |toks|
    ensures WellFormed(t', pl', maxChildren) && Walked(tree, t', place, pl', trail + [next], toks, maxDepth)
  {
    hide WellFormed, Walked;
    WalkedEnd(tree, t, place, pl, trail, toks, maxDepth, maxChildren);
    t', pl' := t, pl;
    if toks[depth-1] in t.nodes[cur].children {
      next := t.nodes[cur].children[toks[depth-1]];
    } else {
      t', pl', next := Child(t, pl, cur, toks[depth-1], maxChildren);
    }
    NextPlace(t', pl', cur, toks[depth-1], maxChildren);
    WalkOn(tree, t, t', place, pl, pl', trail, next, toks, maxDepth);
  }

  /** At the root of the token length, found or new. */
  lemma WalkedRoot(tree: Tree, t: Tree, place: map<NodeId, Place>, pl: map<NodeId, Place>, toks: seq<Token>, maxDepth: int,
                   maxChildren: int)
    requires WellFormed(tree, place, maxChildren) && maxDepth >= 1
    requires if |toks| in tree.byLen then t == tree && pl == place
             else t == Rooted(tree, |toks|) && pl == place[tree.nextNode := Place(|toks|, 1, None, "")]
    ensures WellFormed(t, pl, maxChildren) && |toks| in t.byLen && Walked(tree, t, place, pl, [t.byLen[|toks|]], toks, maxDepth)
  {
    if |toks| !in tree.byLen {
      NewRoot(tree, place, |toks|, maxChildren);
    }
  }

  method Insert(tree: Tree, ghost place: map<NodeId, Place>, toks: seq<Token>, id: Id, maxDepth: int, maxChildren: int)
      returns (tree': Tree, ghost place': map<NodeId, Place>, leaf: NodeId)
    requires WellFormed(tree, place, maxChildren) && maxDepth >= 1
    ensures WellFormed(tree', place', maxChildren) && Inserted(tree, tree', place, place', toks, id, leaf, maxDepth)
  {
    hide WellFormed, Walked, Inserted, Rooted;
    var t, n := tree, |toks|;
    ghost var pl := place;
    if n !in t.byLen {
      t, pl := Rooted(tree, n), place[tree.nextNode := Place(n, 1, None, "")];
    }
    WalkedRoot(tree, t, place, pl, toks, maxDepth, maxChildren);
    var cur, depth := t.byLen[n], 1;
    ghost var trail := [cur];
    while depth < maxDepth && depth < n
      invariant depth == |trail| && trail[depth-1] == cur
      invariant WellFormed(t, pl, maxChildren) && Walked(tree, t, place, pl, trail, toks, maxDepth)
    {
      var next;
      t, pl, next := Down(tree, t, place, pl, trail, cur, toks, depth, maxDepth, maxChildren);
      trail := trail + [next];
      cur := next;
      depth := depth + 1;
    }
    WalkedEnd(tree, t, place, pl, trail, toks, maxDepth, maxChildren);
    tree', place', leaf := Hung(t, cur, id), pl, cur;
    HangLeaf(tree, t, place, pl, trail, toks, id, maxDepth);
    SameShape(t, tree', pl, maxChildren);
  }
}
