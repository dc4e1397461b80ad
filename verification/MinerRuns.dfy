/** Whole runs of the miner: which templates are live, what they say, repetition, snapshots. */
module MinerRuns {
  import opened Options
  import opened Sequences
  import opened Templates
  import opened Clusters
  import opened Forest
  import opened Drain

  // --- recency ----------------------------------------------------------------------------------

  /** All ids ever touched, the last touched first. */
  function Recent(touches: seq<Id>): seq<Id> {
    if touches == [] then []
    else
      var last := touches[|touches|-1];
      [last] + Remove(Recent(touches[..|touches|-1]), last)
  }

  /** What a list that is cut to cap after every touch looks like. */
  function CutEachTime(touches: seq<Id>, cap: int): seq<Id> {
    if touches == [] then []
    else
      var last := touches[|touches|-1];
      Kept([last] + Remove(CutEachTime(touches[..|touches|-1], cap), last), cap)
  }

  lemma {:induction false} RemoveLength(s: seq<Id>, x: Id)
    ensures |Remove(s, x)| == if x in s then |s| - 1 else |s|
  {
    if s != [] && s[0] != x {
      RemoveLength(s[1..], x);
    }
  }

  /** Removing from the front part of a list is the front part of removing. */
  lemma {:induction false} RemovePrefix(s: seq<Id>, x: Id, n: nat)
    requires n <= |s|
    ensures |Remove(s, x)| >= n - 1
    ensures x in s[..n] ==> Remove(s[..n], x) == Remove(s, x)[..n-1]
    ensures x !in s[..n] ==> Remove(s[..n], x) == s[..n] && (n > 0 ==> Remove(s, x)[..n-1] == s[..n-1])
  {
    RemoveLength(s, x);
    if n > 0 {
      assert s[..n][0] == s[0] && s[..n][1..] == s[1..][..n-1];
      if s[0] != x {
        RemovePrefix(s[1..], x, n - 1);
        RemoveLength(s[1..], x);
        assert x in s[..n] <==> x in s[1..][..n-1];
        if x in s[..n] {
          assert Remove(s, x)[..n-1] == [s[0]] + Remove(s[1..], x)[..n-2];
        } else if n > 1 {
          assert Remove(s, x)[..n-1] == [s[0]] + Remove(s[1..], x)[..n-2];
          assert s[..n-1] == [s[0]] + s[1..][..n-2];
        }
      }
    }
  }

  /** Cutting after every touch keeps exactly the cap most recently touched ids. */
  lemma {:induction false} CutKeepsRecent(touches: seq<Id>, cap: int)
    ensures CutEachTime(touches, cap) == Kept(Recent(touches), cap)
  {
    if touches != [] {
      var before, last := touches[..|touches|-1], touches[|touches|-1];
      CutKeepsRecent(before, cap);
      var r := Recent(before);
      RemoveLength(r, last);
      if 0 < cap < |r| {
        RemovePrefix(r, last, cap);
        RemoveLength(r[..cap], last);
        var a, b := [last] + Remove(r[..cap], last), [last] + Remove(r, last);
        if last in r[..cap] {
          assert last in r;
          assert a == b[..cap];
        } else {
          assert a[..cap] == [last] + r[..cap-1];
          assert b[..cap] == [last] + Remove(r, last)[..cap-1];
        }
      }
    }
  }

  /** Position of the last touch of an id that was touched. */
  function LastTouch(touches: seq<Id>, id: Id): (k: nat)
    requires id in touches
    ensures k < |touches| && touches[k] == id && id !in touches[k+1..]
  {
    if touches[|touches|-1] == id then |touches| - 1
    else
      assert id in touches[..|touches|-1];
      var k := LastTouch(touches[..|touches|-1], id);
      assert touches[k+1..] == touches[..|touches|-1][k+1..] + [touches[|touches|-1]];
      k
  }

  /** Recent lists every touched id once. */
  lemma {:induction false} RecentSet(touches: seq<Id>)
    ensures Distinct(Recent(touches))
    ensures forall x :: x in Recent(touches) <==> x in touches
  {
    if touches != [] {
      var before, last := touches[..|touches|-1], touches[|touches|-1];
      RecentSet(before);
      var r := Recent(before);
      assert touches == before + [last];
      if last in r {
        RemoveProps(r, IndexOf(r, last));
      } else {
        RemoveAbsent(r, last);
      }
      FrontDistinct(Remove(r, last), last);
    }
  }

  lemma FrontDistinct(s: seq<Id>, x: Id)
    requires Distinct(s) && x !in s
    ensures Distinct([x] + s)
  {
    forall i, j | 0 <= i < j < |s| + 1 ensures Differ([x] + s, i, j) {
      assert i > 0 ==> Differ(s, i - 1, j - 1);
    }
  }

  /** It lists them in the order of their last touches. */
  lemma {:induction false} RecentOrder(touches: seq<Id>, i: nat, j: nat)
    requires i < j < |Recent(touches)|
    ensures Recent(touches)[i] in touches && Recent(touches)[j] in touches
    ensures LastTouch(touches, Recent(touches)[j]) < LastTouch(touches, Recent(touches)[i])
  {
    hide Recent, LastTouch, Distinct;
    RecentSet(touches);
    RecentFirst(touches, j);
    if i > 0 {
      RecentFirst(touches, i);
      var before := touches[..|touches|-1];
      var i', j' := RecentShift(touches, i, j);
      RecentOrder(before, i', j');
      LastTouchBefore(touches, Recent(touches)[i]);
    }
    LastTouchBefore(touches, Recent(touches)[j]);
    if i == 0 {
      LastTouchLast(touches);
    }
  }

  /** The most recent id is the last touched one, and only it comes first. */
  lemma RecentFirst(touches: seq<Id>, j: nat)
    requires j < |Recent(touches)|
    ensures touches != [] && Recent(touches)[0] == touches[|touches|-1]
    ensures j > 0 ==> Recent(touches)[j] != touches[|touches|-1]
  {
    RecentSet(touches);
    if j > 0 {
      assert Differ(Recent(touches), 0, j);
    }
  }

  lemma LastTouchBefore(touches: seq<Id>, id: Id)
    requires id in touches && touches[|touches|-1] != id
    ensures id in touches[..|touches|-1] && LastTouch(touches, id) == LastTouch(touches[..|touches|-1], id) < |touches| - 1
  {
  }

  lemma LastTouchLast(touches: seq<Id>)
    requires touches != []
    ensures LastTouch(touches, touches[|touches|-1]) == |touches| - 1
  {
  }

  /** Where the i-th entry stood before x was removed. */
  lemma BeforeRemove(r: seq<Id>, x: Id, i: nat) returns (i': nat)
    requires Distinct(r) && i < |Remove(r, x)|
    ensures i' < |r| && r[i'] == Remove(r, x)[i] && i' == if x in r then Skip(IndexOf(r, x), i) else i
  {
    hide Remove, Distinct;
    i' := i;
    if x in r {
      RemoveProps(r, IndexOf(r, x));
      i' := Skip(IndexOf(r, x), i);
    } else {
      RemoveAbsent(r, x);
    }
  }

  /** Where the entries after the first stood before the last touch, in the same order. */
  lemma RecentShift(touches: seq<Id>, i: nat, j: nat) returns (i': nat, j': nat)
    requires 0 < i < j < |Recent(touches)|
    ensures touches != []
    ensures var r := Recent(touches[..|touches|-1]);
      i' < j' < |r| && r[i'] == Recent(touches)[i] && r[j'] == Recent(touches)[j]
  {
    hide Remove, Distinct, IndexOf;
    var before, last := touches[..|touches|-1], touches[|touches|-1];
    RecentSet(before);
    i' := BeforeRemove(Recent(before), last, i - 1);
    j' := BeforeRemove(Recent(before), last, j - 1);
  }

  // --- whole runs -------------------------------------------------------------------------------

  datatype Op = AddOp(toks: seq<Token>, n: int) | HitOp(id: Id, n: int)

  /** One operation and the template it touched; a Hit of a template that is gone touches none. */
  datatype Entry = Entry(op: Op, touched: Option<Id>)

  function TouchesOf(log: seq<Entry>): seq<Id> {
    if log == [] then []
    else TouchesOf(log[..|log|-1]) + (match log[|log|-1].touched case None => [] case Some(id) => [id])
  }

  /** The messages that went into template id, in order. */
  function MsgsOf(log: seq<Entry>, id: Id): seq<seq<Token>> {
    if log == [] then []
    else
      var e := log[|log|-1];
      MsgsOf(log[..|log|-1], id) + if e.op.AddOp? && e.touched == Some(id) then [e.op.toks] else []
  }

  /** The weights counted for template id by Add and Hit, in order. */
  function WeightsOf(log: seq<Entry>, id: Id): seq<int> {
    if log == [] then []
    else
      var e := log[|log|-1];
      WeightsOf(log[..|log|-1], id) + if e.touched == Some(id) then [e.op.n] else []
  }

  /** The templates that are live after a log. */
  function LiveIn(log: seq<Entry>, cap: int): seq<Id> {
    Kept(Recent(TouchesOf(log)), cap)
  }

  /** Is the template of these messages near enough to another one to take it in? */
  ghost predicate NearEnough(msgs: seq<seq<Token>>, toks: seq<Token>, simTh: real) {
    exists tpl {:trigger IsLgg(tpl, msgs)} :: IsLgg(tpl, msgs) && |tpl| == |toks| && Sim(tpl, toks) >= simTh
  }

  /** The operation after a log touches what it must: a Hit its template if that is live, an Add either a
      live template that is near enough or one with a new id, larger than all before. */
  ghost predicate Fits(log: seq<Entry>, e: Entry, op: Op, cap: int, simTh: real) {
    e.op == op && match op
      case AddOp(toks, _) =>
        e.touched != None
        && if e.touched.value in LiveIn(log, cap) then NearEnough(MsgsOf(log, e.touched.value), toks, simTh)
           else forall x :: x in TouchesOf(log) ==> x < e.touched.value
      case HitOp(id, _) => e.touched == if id in LiveIn(log, cap) then Some(id) else None
  }

  lemma {:induction false} UntouchedId(log: seq<Entry>, id: Id)
    requires id !in TouchesOf(log)
    ensures MsgsOf(log, id) == [] && WeightsOf(log, id) == []
  {
    if log != [] {
      UntouchedId(log[..|log|-1], id);
    }
  }

  lemma LogSplit(log: seq<Entry>, e: Entry)
    ensures TouchesOf(log + [e]) == match e.touched
                                    case None => TouchesOf(log)
                                    case Some(id) => TouchesOf(log) + [id]
    ensures forall id :: MsgsOf(log + [e], id) == MsgsOf(log, id) + if e.op.AddOp? && e.touched == Some(id) then [e.op.toks] else []
    ensures forall id :: WeightsOf(log + [e], id) == WeightsOf(log, id) + if e.touched == Some(id) then [e.op.n] else []
  {
    assert (log + [e])[..|log|] == log;
  }

  lemma CutStep(touches: seq<Id>, id: Id, cap: int)
    ensures CutEachTime(touches + [id], cap) == Kept([id] + Remove(CutEachTime(touches, cap), id), cap)
  {
    assert (touches + [id])[..|touches|] == touches;
  }

  /** What the miner keeps is what the log says: which templates are live and in which order, and
      per live template its messages and weights. */
  ghost predicate Agrees(order: seq<Id>, nextID: int, cs: map<Id, Cluster>, msgs: map<Id, seq<seq<Token>>>,
                         weights: map<Id, seq<int>>, cap: int, log: seq<Entry>)
  {
    && order == CutEachTime(TouchesOf(log), cap)
    && (forall id :: id in TouchesOf(log) ==> id <= nextID)
    && (forall id {:trigger Remembered(msgs, weights, log, id)} :: id in cs ==> Remembered(msgs, weights, log, id))
  }

  ghost predicate Remembered(msgs: map<Id, seq<seq<Token>>>, weights: map<Id, seq<int>>, log: seq<Entry>, id: Id) {
    id in msgs && id in weights && msgs[id] == MsgsOf(log, id) && weights[id] == WeightsOf(log, id)
  }

  lemma AgreesAfterCreate(m: Miner, order: seq<Id>, nextID: int, cs: map<Id, Cluster>, msgs: map<Id, seq<seq<Token>>>,
                          weights: map<Id, seq<int>>, log: seq<Entry>, e: Entry)
    requires m.Valid() && Agrees(order, nextID, cs, msgs, weights, m.maxClusters, log)
    requires e.op.AddOp? && e.touched == Some(nextID + 1) && m.nextID == nextID + 1
    requires m.order == Kept([nextID + 1] + order, m.maxClusters) && nextID + 1 !in order
    requires m.msgs == msgs[nextID + 1 := [e.op.toks]] && m.weights == weights[nextID + 1 := [e.op.n]]
    requires forall c :: c in m.clusters && c != nextID + 1 ==> c in cs
    ensures Agrees(m.order, m.nextID, m.clusters, m.msgs, m.weights, m.maxClusters, log + [e])
  {
    LogSplit(log, e);
    CutStep(TouchesOf(log), nextID + 1, m.maxClusters);
    UntouchedId(log, nextID + 1);
    RemoveAbsent(order, nextID + 1);
    forall id | id in m.clusters ensures Remembered(m.msgs, m.weights, log + [e], id) {
      assert id != nextID + 1 ==> Remembered(msgs, weights, log, id);
    }
  }

  lemma AgreesAfterTouch(m: Miner, order: seq<Id>, cs: map<Id, Cluster>, msgs: map<Id, seq<seq<Token>>>,
                         weights: map<Id, seq<int>>, log: seq<Entry>, e: Entry)
    requires m.Valid() && Agrees(order, m.nextID, cs, msgs, weights, m.maxClusters, log)
    requires e.touched != None && e.touched.value in cs && e.touched.value in order && m.clusters.Keys == cs.Keys
    requires e.touched.value in msgs && e.touched.value in weights && e.touched.value <= m.nextID
    requires m.order == [e.touched.value] + Remove(order, e.touched.value)
    requires m.msgs == msgs[e.touched.value := msgs[e.touched.value] + if e.op.AddOp? then [e.op.toks] else []]
    requires m.weights == weights[e.touched.value := weights[e.touched.value] + [e.op.n]]
    ensures Agrees(m.order, m.nextID, m.clusters, m.msgs, m.weights, m.maxClusters, log + [e])
  {
    LogSplit(log, e);
    CutStep(TouchesOf(log), e.touched.value, m.maxClusters);
    RemoveLength(order, e.touched.value);
    CutLength(TouchesOf(log), m.maxClusters);
    forall id | id in m.clusters ensures Remembered(m.msgs, m.weights, log + [e], id) {
      assert Remembered(msgs, weights, log, id);
    }
  }

  lemma LiveIs(m: Miner, log: seq<Entry>)
    requires m.Valid() && Agrees(m.order, m.nextID, m.clusters, m.msgs, m.weights, m.maxClusters, log)
    ensures forall id :: id in LiveIn(log, m.maxClusters) <==> id in m.clusters
    ensures forall id :: id in m.order <==> id in m.clusters
    ensures forall id :: id in m.order || id in TouchesOf(log) ==> id <= m.nextID
  {
    CutKeepsRecent(TouchesOf(log), m.maxClusters);
  }

  lemma NearOne(m: Miner, log: seq<Entry>, id: Id, toks: seq<Token>)
    requires m.Valid() && Agrees(m.order, m.nextID, m.clusters, m.msgs, m.weights, m.maxClusters, log) && id in m.clusters
    requires |m.clusters[id].Tokens| == |toks| && Sim(m.clusters[id].Tokens, toks) >= m.simTh
    ensures NearEnough(MsgsOf(log, id), toks, m.simTh)
  {
    assert Remembered(m.msgs, m.weights, log, id) && Told(m.clusters[id], m.msgs, m.weights, id);
    assert IsLgg(m.clusters[id].Tokens, MsgsOf(log, id));
  }

  /** One Add: it touches the template that a search of the message finds, or a new one. */
  method StepAdd(m: Miner, toks: seq<Token>, n: int, ghost log: seq<Entry>) returns (ghost e: Entry)
    requires m.Valid() && Agrees(m.order, m.nextID, m.clusters, m.msgs, m.weights, m.maxClusters, log)
    modifies m
    ensures m.Valid() && Fits(log, e, AddOp(toks, n), m.maxClusters, m.simTh)
    ensures e.touched == match old(Lookup(m.tree, m.clusters, toks, m.maxNodeDepth, m.simTh))
                         case Some(id) => Some(id)
                         case None => Some(old(m.nextID) + 1)
    ensures Agrees(m.order, m.nextID, m.clusters, m.msgs, m.weights, m.maxClusters, log + [e])
  {
    hide Miner.Valid, IsLgg, Agrees, NearEnough, LiveIn, TouchesOf, Lookup, Sim;
    LiveIs(m, log);
    forall id | id in m.clusters && |m.clusters[id].Tokens| == |toks| && Sim(m.clusters[id].Tokens, toks) >= m.simTh
      ensures NearEnough(MsgsOf(log, id), toks, m.simTh) {
      NearOne(m, log, id, toks);
    }
    var id, ch := m.Add(toks, n);
    e := Entry(AddOp(toks, n), Some(id));
    if ch == Created {
      AgreesAfterCreate(m, old(m.order), old(m.nextID), old(m.clusters), old(m.msgs), old(m.weights), log, e);
    } else {
      GeneraliseSettles(old(m.clusters)[id].Tokens, toks);
      AgreesAfterTouch(m, old(m.order), old(m.clusters), old(m.msgs), old(m.weights), log, e);
    }
  }

  lemma AgreesAfterMiss(order: seq<Id>, nextID: int, cs: map<Id, Cluster>, cs': map<Id, Cluster>, msgs: map<Id, seq<seq<Token>>>,
                        weights: map<Id, seq<int>>, cap: int, log: seq<Entry>, e: Entry)
    requires Agrees(order, nextID, cs, msgs, weights, cap, log) && e.touched == None && cs'.Keys == cs.Keys
    ensures Agrees(order, nextID, cs', msgs, weights, cap, log + [e])
  {
    LogSplit(log, e);
    forall c | c in cs' ensures Remembered(msgs, weights, log + [e], c) {
      assert Remembered(msgs, weights, log, c);
    }
  }

  lemma KnownMessages(m: Miner, id: Id)
    requires m.Valid() && id in m.clusters
    ensures id in m.msgs && id in m.weights && m.msgs[id] + [] == m.msgs[id]
  {
    assert Told(m.clusters[id], m.msgs, m.weights, id);
  }

  method StepHit(m: Miner, id: Id, n: int, ghost log: seq<Entry>) returns (ghost e: Entry)
    requires m.Valid() && Agrees(m.order, m.nextID, m.clusters, m.msgs, m.weights, m.maxClusters, log)
    modifies m
    ensures m.Valid() && Fits(log, e, HitOp(id, n), m.maxClusters, m.simTh)
    ensures Agrees(m.order, m.nextID, m.clusters, m.msgs, m.weights, m.maxClusters, log + [e])
  {
    hide Miner.Valid, Agrees, LiveIn, TouchesOf;
    LiveIs(m, log);
    if id in m.clusters {
      KnownMessages(m, id);
    }
    var found := m.Hit(id, n);
    e := Entry(HitOp(id, n), if found then Some(id) else None);
    if found {
      AgreesAfterTouch(m, old(m.order), old(m.clusters), old(m.msgs), old(m.weights), log, e);
    } else {
      AgreesAfterMiss(m.order, m.nextID, old(m.clusters), m.clusters, m.msgs, m.weights, m.maxClusters, log, e);
    }
  }

  lemma CutLength(touches: seq<Id>, cap: int)
    ensures cap > 0 ==> |CutEachTime(touches, cap)| <= cap
  {
  }

  /** Each operation fits the log before it. */
  ghost predicate AllFit(log: seq<Entry>, ops: seq<Op>, cap: int, simTh: real) {
    |log| <= |ops| && forall k {:trigger log[k]} :: 0 <= k < |log| ==> Fits(log[..k], log[k], ops[k], cap, simTh)
  }

  lemma FitsMore(log: seq<Entry>, e: Entry, ops: seq<Op>, cap: int, simTh: real)
    requires AllFit(log, ops, cap, simTh) && |log| < |ops| && Fits(log, e, ops[|log|], cap, simTh)
    ensures AllFit(log + [e], ops, cap, simTh)
  {
    hide Fits;
    var more := log + [e];
    forall k | 0 <= k < |more| ensures Fits(more[..k], more[k], ops[k], cap, simTh) {
      assert more[..k] == log[..k];
      if k == |log| {
        assert log[..k] == log;
      }
    }
  }

  lemma NewMiner(m: Miner, ops: seq<Op>)
    requires m.Valid() && m.order == []
    ensures Agrees(m.order, m.nextID, m.clusters, m.msgs, m.weights, m.maxClusters, []) && AllFit([], ops, m.maxClusters, m.simTh)
  {
  }

  lemma LiveTemplates(m: Miner, log: seq<Entry>)
    requires m.Valid() && Agrees(m.order, m.nextID, m.clusters, m.msgs, m.weights, m.maxClusters, log)
    ensures m.order == LiveIn(log, m.maxClusters) && forall id :: id in m.order <==> id in m.clusters
    ensures forall id :: id in m.clusters ==>
      IsLgg(m.clusters[id].Tokens, MsgsOf(log, id)) && m.clusters[id].Size == Sum(WeightsOf(log, id))
  {
    CutKeepsRecent(TouchesOf(log), m.maxClusters);
    forall id | id in m.clusters
      ensures IsLgg(m.clusters[id].Tokens, MsgsOf(log, id)) && m.clusters[id].Size == Sum(WeightsOf(log, id))
    {
      assert Told(m.clusters[id], m.msgs, m.weights, id) && Remembered(m.msgs, m.weights, log, id);
    }
  }

  /** Any run of Add and Hit on a new miner. The live templates are the cap most recently touched
      ones, so a victim is always the least recently touched; each template is the least general
      one of exactly the messages added to it; its size is the sum of the weights counted for it. */
  method Run(m: Miner, ops: seq<Op>) returns (ghost log: seq<Entry>)
    requires m.Valid() && m.order == []
    modifies m
    ensures m.Valid() && |log| == |ops| && AllFit(log, ops, m.maxClusters, m.simTh)
    ensures m.order == LiveIn(log, m.maxClusters) && forall id :: id in m.order <==> id in m.clusters
    ensures forall id :: id in m.clusters ==>
      IsLgg(m.clusters[id].Tokens, MsgsOf(log, id)) && m.clusters[id].Size == Sum(WeightsOf(log, id))
  {
    hide *;
    log := [];
    NewMiner(m, ops);
    for k := 0 to |ops|
      invariant m.Valid() && Agrees(m.order, m.nextID, m.clusters, m.msgs, m.weights, m.maxClusters, log)
      invariant |log| == k && AllFit(log, ops, m.maxClusters, m.simTh)
    {
      ghost var e;
      match ops[k] {
        case AddOp(toks, n) => e := StepAdd(m, toks, n, log);
        case HitOp(id, n) => e := StepHit(m, id, n, log);
      }
      FitsMore(log, e, ops, m.maxClusters, m.simTh);
      log := log + [e];
    }
    LiveTemplates(m, log);
  }

  // --- repetition ---------------------------------------------------------------------------------

  /** Adding the same message twice in a row. The second Add finds the template of the first one
      and changes nothing, exactly unless the first one started a new template from a message with
      too many parameter marks to be similar even to itself. */
  method AddTwice(m: Miner, toks: seq<Token>, n: int, k: int) returns (id: Id, ch: Change, id2: Id, ch2: Change)
    requires m.Valid()
    modifies m
    ensures m.Valid()
    ensures (id2 == id && ch2 == Unchanged) <==> (ch != Created || Sim(toks, toks) >= m.simTh)
    ensures !(id2 == id && ch2 == Unchanged) ==> ch2 == Created && id2 == id + 1
  {
    id, ch := m.Add(toks, n);
    if ch != Created {
      GeneraliseSettles(old(m.clusters)[id].Tokens, toks);
    }
    id2, ch2 := m.Add(toks, k);
  }

  /** Two messages of one length that differ only in words with a digit, or in words that a search does not look
      at, end up in one template exactly when they have enough in common, so long as no template was near
      enough to either. */
  method AddAlike(m: Miner, a: seq<Token>, b: seq<Token>, n: int, k: int) returns (id: Id, id2: Id)
    requires m.Valid() && Alike(a, b, m.maxNodeDepth)
    requires Lookup(m.tree, m.clusters, a, m.maxNodeDepth, m.simTh) == None
    requires Lookup(m.tree, m.clusters, b, m.maxNodeDepth, m.simTh) == None
    modifies m
    ensures m.Valid() && |a| == |b| && id == old(m.nextID) + 1
    ensures id2 == if Sim(a, b) >= m.simTh then id else id + 1
    ensures id2 == id ==> id in m.clusters && m.clusters[id].Tokens == Generalise(a, b) && m.clusters[id].Size == n + k
  {
    hide Lookup, Sim, Miner.Valid, Alike;
    SameLengths(a, b, m.maxNodeDepth);
    ghost var tree, cs := m.tree, m.clusters;
    var ch;
    id, ch := m.Add(a, n);
    assert Shares(tree, cs, m.tree, m.clusters, a, id, m.maxNodeDepth, m.simTh, b);
    id2, ch := m.Add(b, k);
  }

  // --- snapshots ------------------------------------------------------------------------------------

  datatype Snap = Snap(ID: Id, Tokens: seq<Token>, Size: int)

  /** A copy of every template, most recently used first. */
  method Copy(m: Miner) returns (snaps: seq<Snap>)
    requires m.Valid()
    ensures |snaps| == |m.order| && forall i :: 0 <= i < |snaps| ==> Copies(snaps[i], m.order[i], m.clusters)
  {
    var ids := m.List();
    snaps := [];
    for i := 0 to |ids|
      invariant |snaps| == i && forall j :: 0 <= j < i ==> Copies(snaps[j], ids[j], m.clusters)
    {
      assert ids[i] in m.order;
      var c := ids[i];
      snaps := snaps + [Snap(c, m.clusters[c].Tokens, m.clusters[c].Size)];
    }
  }

  predicate Copies(s: Snap, id: Id, cs: map<Id, Cluster>) {
    s.ID == id && id in cs && s.Tokens == cs[id].Tokens && s.Size == cs[id].Size
  }

  function IdsOf(snaps: seq<Snap>): (ids: seq<Id>)
    ensures |ids| == |snaps| && forall i :: 0 <= i < |ids| ==> ids[i] == snaps[i].ID
  {
    seq(|snaps|, i requires 0 <= i < |snaps| => snaps[i].ID)
  }

  /** Restoring a snapshot oldest first into a new miner rebuilds the same ids in the same order,
      with the same tokens and sizes, and no later id will collide with them. */
  method RestoreAll(m: Miner, snaps: seq<Snap>)
    requires m.Valid() && m.order == [] && Distinct(IdsOf(snaps))
    modifies m
    ensures m.Valid() && m.order == IdsOf(snaps)
    ensures forall i :: 0 <= i < |snaps| ==> Copies(snaps[i], snaps[i].ID, m.clusters)
    ensures forall i :: 0 <= i < |snaps| ==> snaps[i].ID <= m.nextID
  {
    hide Miner.Valid, Distinct;
    var i := |snaps|;
    while i > 0
      invariant 0 <= i <= |snaps| && m.Valid() && m.order == IdsOf(snaps)[i..]
      invariant forall j :: i <= j < |snaps| ==> Copies(snaps[j], snaps[j].ID, m.clusters)
    {
      i := i - 1;
      var s := snaps[i];
      FreshSnap(IdsOf(snaps), i);
      IdsInOrder(m);
      m.Restore(s.ID, s.Tokens, s.Size);
      assert IdsOf(snaps)[i..] == [s.ID] + IdsOf(snaps)[i+1..];
    }
    IdsInOrder(m);
  }

  lemma IdsInOrder(m: Miner)
    requires m.Valid()
    ensures forall c :: c in m.clusters ==> c in m.order && c <= m.nextID
  {
  }

  lemma FreshSnap(ids: seq<Id>, i: nat)
    requires Distinct(ids) && i < |ids|
    ensures ids[i] !in ids[i+1..]
  {
    DistinctAt(ids, i);
  }
}
