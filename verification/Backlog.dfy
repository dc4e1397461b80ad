/** The agent's line counts between reading and acknowledgement: reads merge into them, a push takes
    them all, and a failed push puts them back under a cap on the number of keys. */
module Backlog {
  import opened Numbers
  import opened Options

  /** A template of one of the agent's miners, at one level. */
  datatype CountKey = CountKey(miner: int, id: int, level: string)

  datatype CountVal = CountVal(tmpl: string, buckets: map<int, int>)

  /** What one read collected for a key. */
  datatype LocalCount = LocalCount(n: int, tmpl: string)

  type Counts = map<CountKey, CountVal>

  /** Lines per key and bucket. */
  type Tally = map<CountKey, map<int, int>>

  function Entry(m: map<int, int>, b: int): int {
    if b in m then m[b] else 0
  }

  function Of(t: Tally, k: CountKey, b: int): int {
    if k in t then Entry(t[k], b) else 0
  }

  function TallyOf(c: Counts): Tally {
    map k | k in c :: c[k].buckets
  }

  function AddBuckets(x: map<int, int>, y: map<int, int>): map<int, int> {
    map b | b in x.Keys + y.Keys :: Entry(x, b) + Entry(y, b)
  }

  function Plus(x: Tally, y: Tally): Tally {
    map k | k in x.Keys + y.Keys ::
      if k !in y then x[k] else if k !in x then y[k] else AddBuckets(x[k], y[k])
  }

  lemma PlusOf(x: Tally, y: Tally, k: CountKey, b: int)
    ensures Of(Plus(x, y), k, b) == Of(x, k, b) + Of(y, k, b)
  {
  }

  function LocalTally(local: map<CountKey, LocalCount>, bucket: int): Tally {
    map k | k in local :: map[bucket := local[k].n]
  }

  /** The part of a tally under some keys, and the rest. */
  function Only(t: Tally, keys: set<CountKey>): Tally {
    map k | k in t && k in keys :: t[k]
  }

  /** A key's value after a read was merged. */
  function MergeVal(was: Counts, local: map<CountKey, LocalCount>, bucket: int, k: CountKey): CountVal
    requires k in local
  {
    var m := if k in was then was[k].buckets else map[];
    CountVal(local[k].tmpl, m[bucket := Entry(m, bucket) + local[k].n])
  }

  /** A key's value after a failed push joined its counts to those of the backlog. */
  function Joined(cur: CountVal, v: CountVal): CountVal {
    CountVal(if cur.tmpl == "" then v.tmpl else cur.tmpl, AddBuckets(cur.buckets, v.buckets))
  }

  function Back(was: Counts, v: CountVal, k: CountKey): CountVal {
    if k in was then Joined(was[k], v) else v
  }

  /** Key k after the keys of local other than todo were merged into was. */
  ghost predicate MergedAt(counts: Counts, was: Counts, local: map<CountKey, LocalCount>, bucket: int, todo: set<CountKey>, k: CountKey) {
    && (k in counts <==> k in was || (k in local && k !in todo))
    && (k in counts ==> counts[k] == if k in local && k !in todo then MergeVal(was, local, bucket, k) else was[k])
  }

  /** Adds the counts of one read to their bucket, key by key in any order. */
  method MergeInto(was: Counts, local: map<CountKey, LocalCount>, bucket: int) returns (counts: Counts)
    ensures forall k {:trigger MergedAt(counts, was, local, bucket, {}, k)} :: MergedAt(counts, was, local, bucket, {}, k)
  {
    counts := was;
    var todo := local.Keys;
    while todo != {}
      invariant todo <= local.Keys
      invariant forall k {:trigger MergedAt(counts, was, local, bucket, todo, k)} :: MergedAt(counts, was, local, bucket, todo, k)
      decreases |todo|
    {
      var k :| k in todo;
      ghost var before, left := counts, todo;
      assert MergedAt(before, was, local, bucket, left, k);
      var v := if k in counts then counts[k] else CountVal("", map[]);
      counts := counts[k := CountVal(local[k].tmpl, v.buckets[bucket := Entry(v.buckets, bucket) + local[k].n])];
      todo := todo - {k};
      forall x ensures MergedAt(counts, was, local, bucket, todo, x) {
        assert MergedAt(before, was, local, bucket, left, x);
      }
    }
  }

  lemma AddOne(m: map<int, int>, bucket: int, n: int)
    ensures AddBuckets(m, map[bucket := n]) == m[bucket := Entry(m, bucket) + n]
  {
  }

  lemma TallyKeys(c: Counts)
    ensures TallyOf(c).Keys == c.Keys
  {
  }

  lemma MergedTally(counts: Counts, was: Counts, local: map<CountKey, LocalCount>, bucket: int)
    requires forall k {:trigger MergedAt(counts, was, local, bucket, {}, k)} :: MergedAt(counts, was, local, bucket, {}, k)
    ensures TallyOf(counts) == Plus(TallyOf(was), LocalTally(local, bucket)) && counts.Keys == was.Keys + local.Keys
    ensures forall k :: k in counts ==> if k in local then counts[k].tmpl == local[k].tmpl else counts[k] == was[k]
  {
    hide AddBuckets;
    var sum := Plus(TallyOf(was), LocalTally(local, bucket));
    forall k
      ensures k in counts <==> k in was.Keys + local.Keys
      ensures (k in counts <==> k in sum) && (k in counts ==> counts[k].buckets == sum[k])
      ensures k in counts ==> if k in local then counts[k].tmpl == local[k].tmpl else counts[k] == was[k] {
      assert MergedAt(counts, was, local, bucket, {}, k);
      if k in was && k in local {
        AddOne(was[k].buckets, bucket, local[k].n);
      }
    }
  }

  /** Key k after the taken keys other than todo and gone were put back into was. */
  ghost predicate BackAt(counts: Counts, was: Counts, taken: Counts, todo: set<CountKey>, gone: set<CountKey>, k: CountKey) {
    && (k in counts <==> k in was || (k in taken && k !in todo && k !in gone))
    && (k in counts ==> counts[k] == if k in taken && k !in todo then Back(was, taken[k], k) else was[k])
  }

  ghost predicate AllBack(counts: Counts, was: Counts, taken: Counts, todo: set<CountKey>, gone: set<CountKey>) {
    forall k {:trigger BackAt(counts, was, taken, todo, gone, k)} :: BackAt(counts, was, taken, todo, gone, k)
  }

  /** Puts taken counts back, key by key in any order: the new counts and how many keys were dropped. */
  method PutBack(was: Counts, taken: Counts, cap: int) returns (counts: Counts, dropped: nat, ghost gone: set<CountKey>)
    ensures AllBack(counts, was, taken, {}, gone)
    ensures gone <= taken.Keys && gone !! was.Keys && dropped == |gone|
    ensures |counts| <= Max(|was|, cap) && (gone != {} ==> |counts| >= cap)
  {
    hide AllBack, Joined;
    counts, dropped, gone := was, 0, {};
    var todo := taken.Keys;
    NoneBack(was, taken);
    while todo != {}
      invariant todo <= taken.Keys && gone <= taken.Keys - todo && gone !! was.Keys
      invariant AllBack(counts, was, taken, todo, gone)
      invariant dropped == |gone|
      invariant |counts| <= Max(|was|, cap) && (gone != {} ==> |counts| >= cap)
      decreases |todo|
    {
      var k :| k in todo;
      ghost var before, out := counts, gone;
      NotYetBack(before, was, taken, todo, out, k);
      if k in counts {
        counts := counts[k := Joined(counts[k], taken[k])];
      } else if |counts| >= cap {
        dropped := dropped + 1;
        gone := gone + {k};
      } else {
        counts := counts[k := taken[k]];
      }
      BackStep(before, counts, was, taken, todo, out, gone, k);
      todo := todo - {k};
    }
  }

  lemma NoneBack(was: Counts, taken: Counts)
    ensures AllBack(was, was, taken, taken.Keys, {})
  {
  }

  lemma NotYetBack(counts: Counts, was: Counts, taken: Counts, todo: set<CountKey>, gone: set<CountKey>, k: CountKey)
    requires AllBack(counts, was, taken, todo, gone) && k in todo
    ensures (k in counts <==> k in was) && (k in was ==> counts[k] == was[k])
  {
    assert BackAt(counts, was, taken, todo, gone, k);
  }

  lemma BackStep(before: Counts, after: Counts, was: Counts, taken: Counts, todo: set<CountKey>, out: set<CountKey>,
                 gone: set<CountKey>, k: CountKey)
    requires AllBack(before, was, taken, todo, out)
    requires k in todo && k in taken && (gone == out || (gone == out + {k} && k !in was))
    requires after == if gone != out then before else if k in was then before[k := Joined(was[k], taken[k])] else before[k := taken[k]]
    requires gone == out ==> k !in out
    ensures AllBack(after, was, taken, todo - {k}, gone)
  {
    hide Joined;
    var left := todo - {k};
    forall x ensures BackAt(after, was, taken, left, gone, x) {
      assert BackAt(before, was, taken, todo, out, x);
    }
  }

  lemma BackTally(counts: Counts, was: Counts, taken: Counts, gone: set<CountKey>)
    requires AllBack(counts, was, taken, {}, gone)
    requires gone <= taken.Keys && gone !! was.Keys
    ensures was.Keys <= counts.Keys <= was.Keys + taken.Keys && gone == taken.Keys - counts.Keys
    ensures gone != {} ==> counts.Keys != was.Keys + taken.Keys
    ensures gone == {} ==> counts.Keys == was.Keys + taken.Keys
    ensures forall k :: k in was && was[k].tmpl != "" ==> counts[k].tmpl == was[k].tmpl
    ensures TallyOf(counts) == Plus(TallyOf(was), Only(TallyOf(taken), counts.Keys))
  {
    hide AddBuckets;
    var sum := Plus(TallyOf(was), Only(TallyOf(taken), counts.Keys));
    forall k
      ensures (k in counts <==> k in was || (k in taken && k !in gone)) && (k in counts <==> k in sum)
      ensures k in counts ==> counts[k].buckets == sum[k]
      ensures k in was && was[k].tmpl != "" ==> counts[k].tmpl == was[k].tmpl {
      assert BackAt(counts, was, taken, {}, gone, k);
    }
  }

  predicate BalancedAt(mined: Tally, acked: Tally, lost: Tally, discarded: Tally, inFlight: Tally, counts: Tally, k: CountKey, b: int) {
    Of(mined, k, b) == Of(acked, k, b) + Of(lost, k, b) + Of(discarded, k, b) + Of(inFlight, k, b) + Of(counts, k, b)
  }

  /** Mined lines are acknowledged, lost, discarded, in flight or in the backlog. */
  ghost predicate Balanced(mined: Tally, acked: Tally, lost: Tally, discarded: Tally, inFlight: Tally, counts: Tally) {
    forall k, b {:trigger BalancedAt(mined, acked, lost, discarded, inFlight, counts, k, b)} ::
      BalancedAt(mined, acked, lost, discarded, inFlight, counts, k, b)
  }

  lemma BalancedMerge(mined: Tally, acked: Tally, lost: Tally, discarded: Tally, inFlight: Tally, counts: Tally, add: Tally)
    requires Balanced(mined, acked, lost, discarded, inFlight, counts)
    ensures Balanced(Plus(mined, add), acked, lost, discarded, inFlight, Plus(counts, add))
  {
    hide Of, Plus;
    forall k, b ensures BalancedAt(Plus(mined, add), acked, lost, discarded, inFlight, Plus(counts, add), k, b) {
      assert BalancedAt(mined, acked, lost, discarded, inFlight, counts, k, b);
      PlusOf(mined, add, k, b);
      PlusOf(counts, add, k, b);
    }
  }

  lemma NothingOf(k: CountKey, b: int)
    ensures Of(TallyOf(map[]), k, b) == 0
  {
  }

  lemma BalancedTake(mined: Tally, acked: Tally, lost: Tally, discarded: Tally, counts: Tally)
    requires Balanced(mined, acked, lost, discarded, TallyOf(map[]), counts)
    ensures Balanced(mined, acked, lost, discarded, counts, TallyOf(map[]))
  {
    hide Of;
    forall k, b ensures BalancedAt(mined, acked, lost, discarded, counts, TallyOf(map[]), k, b) {
      assert BalancedAt(mined, acked, lost, discarded, TallyOf(map[]), counts, k, b);
    }
  }

  lemma BalancedDone(mined: Tally, acked: Tally, lost: Tally, discarded: Tally, inFlight: Tally, counts: Tally)
    requires Balanced(mined, acked, lost, discarded, inFlight, counts)
    ensures Balanced(mined, Plus(acked, inFlight), lost, discarded, TallyOf(map[]), counts)
    ensures Balanced(mined, acked, lost, Plus(discarded, inFlight), TallyOf(map[]), counts)
  {
    hide Of, Plus, TallyOf;
    forall k, b
      ensures BalancedAt(mined, Plus(acked, inFlight), lost, discarded, TallyOf(map[]), counts, k, b)
      ensures BalancedAt(mined, acked, lost, Plus(discarded, inFlight), TallyOf(map[]), counts, k, b) {
      assert BalancedAt(mined, acked, lost, discarded, inFlight, counts, k, b);
      NothingOf(k, b);
      PlusOf(acked, inFlight, k, b);
      PlusOf(discarded, inFlight, k, b);
    }
  }

  lemma SplitOf(t: Tally, back: set<CountKey>, gone: set<CountKey>, k: CountKey, b: int)
    requires gone == t.Keys - back
    ensures Of(t, k, b) == Of(Only(t, gone), k, b) + Of(Only(t, back), k, b)
  {
  }

  lemma BalancedFail(mined: Tally, acked: Tally, lost: Tally, discarded: Tally, taken: Tally, was: Tally,
                     back: set<CountKey>, gone: set<CountKey>)
    requires Balanced(mined, acked, lost, discarded, taken, was)
    requires gone == taken.Keys - back
    ensures Balanced(mined, acked, Plus(lost, Only(taken, gone)), discarded, TallyOf(map[]), Plus(was, Only(taken, back)))
  {
    hide Of, Plus, Only, TallyOf;
    var lost', counts := Plus(lost, Only(taken, gone)), Plus(was, Only(taken, back));
    forall k, b ensures BalancedAt(mined, acked, lost', discarded, TallyOf(map[]), counts, k, b) {
      assert BalancedAt(mined, acked, lost, discarded, taken, was, k, b);
      NothingOf(k, b);
      SplitOf(taken, back, gone, k, b);
      PlusOf(lost, Only(taken, gone), k, b);
      PlusOf(was, Only(taken, back), k, b);
    }
  }

  class Agent {
    const maxBacklog: int
    const server: bool
    var counts: Counts
    /** What a push has taken and not yet had answered. */
    var inFlight: Counts
    var dropped: nat
    /** Lines mined and acknowledged so far, those lost under dropped keys, and those thrown away by
        pushes without a server. */
    ghost var mined: Tally
    ghost var acked: Tally
    ghost var lost: Tally
    ghost var discarded: Tally

    /** Every line mined is accounted for, per key and bucket. */
    ghost predicate Valid()
      reads this
    {
      Balanced(mined, acked, lost, discarded, TallyOf(inFlight), TallyOf(counts))
    }

    constructor (maxBacklog: int, server: bool)
      ensures Valid() && this.maxBacklog == maxBacklog && this.server == server && counts == map[] && mined == map[]
    {
      this.maxBacklog, this.server := maxBacklog, server;
      counts, inFlight, dropped := map[], map[], 0;
      mined, acked, lost, discarded := map[], map[], map[], map[];
    }

    /** Adds the counts of one read to their bucket. */
    method Merge(local: map<CountKey, LocalCount>, bucket: int)
      requires Valid()
      modifies `counts, `mined
      ensures Valid() && mined == Plus(old(mined), LocalTally(local, bucket))
      ensures TallyOf(counts) == Plus(TallyOf(old(counts)), LocalTally(local, bucket))
      ensures counts.Keys == old(counts.Keys) + local.Keys
      ensures forall k :: k in counts ==> if k in local then counts[k].tmpl == local[k].tmpl else counts[k] == old(counts)[k]
    {
      ghost var was, add := counts, LocalTally(local, bucket);
      counts := MergeInto(counts, local, bucket);
      MergedTally(counts, was, local, bucket);
      mined := Plus(mined, add);
      BalancedMerge(old(mined), acked, lost, discarded, TallyOf(inFlight), TallyOf(was), add);
    }

    /** A push takes all counts. */
    method Take()
      requires Valid() && inFlight == map[]
      modifies `counts, `inFlight
      ensures Valid() && inFlight == old(counts) && counts == map[]
    {
      ghost var t := TallyOf(counts);
      inFlight, counts := counts, map[];
      BalancedTake(mined, acked, lost, discarded, t);
    }

    /** Without a server the counts are thrown away. */
    method Discard()
      requires Valid() && !server
      modifies `inFlight, `discarded
      ensures Valid() && inFlight == map[] && discarded == Plus(old(discarded), TallyOf(old(inFlight)))
    {
      BalancedDone(mined, acked, lost, discarded, TallyOf(inFlight), TallyOf(counts));
      discarded := Plus(discarded, TallyOf(inFlight));
      inFlight := map[];
    }

    method Succeed()
      requires Valid()
      modifies `inFlight, `acked
      ensures Valid() && inFlight == map[] && acked == Plus(old(acked), TallyOf(old(inFlight)))
    {
      BalancedDone(mined, acked, lost, discarded, TallyOf(inFlight), TallyOf(counts));
      acked := Plus(acked, TallyOf(inFlight));
      inFlight := map[];
    }

    /** A failed push puts the counts back. Keys that are in the backlog again by now always keep all
        their lines; other keys are put back while there is room, the rest is dropped. */
    method Fail()
      requires Valid()
      modifies `counts, `inFlight, `dropped, `lost
      ensures Valid() && inFlight == map[]
      ensures old(counts.Keys) <= counts.Keys <= old(counts.Keys) + old(inFlight.Keys)
      ensures |counts| == Max(|old(counts)|, Min(maxBacklog, |old(counts.Keys) + old(inFlight.Keys)|))
      ensures dropped - old(dropped) == |old(inFlight.Keys) - counts.Keys|
      ensures TallyOf(counts) == Plus(TallyOf(old(counts)), Only(TallyOf(old(inFlight)), counts.Keys))
      ensures lost == Plus(old(lost), Only(TallyOf(old(inFlight)), old(inFlight.Keys) - counts.Keys))
      ensures forall k :: k in old(counts) && old(counts)[k].tmpl != "" ==> counts[k].tmpl == old(counts)[k].tmpl
    {
      hide BackAt, Balanced, Plus, Only, TallyOf;
      var n;
      ghost var was, taken, gone := counts, inFlight, {};
      counts, n, gone := PutBack(counts, inFlight, maxBacklog);
      BackTally(counts, was, taken, gone);
      SizeAfter(was.Keys, taken.Keys, counts.Keys, maxBacklog);
      TallyKeys(taken);
      BalancedFail(mined, acked, lost, discarded, TallyOf(taken), TallyOf(was), counts.Keys, gone);
      inFlight, dropped := map[], dropped + n;
      lost := Plus(lost, Only(TallyOf(taken), gone));
    }

    /** One push with its answer. */
    method Push(ok: bool)
      requires Valid() && inFlight == map[]
      modifies this
      ensures Valid() && inFlight == map[] && mined == old(mined)
      ensures server && ok ==> counts == map[] && acked == Plus(old(acked), TallyOf(old(counts)))
      ensures server && !ok ==> acked == old(acked) && |counts| == Max(0, Min(maxBacklog, |old(counts)|))
      ensures !server ==> acked == old(acked) && counts == map[]
    {
      hide Balanced, Plus, Only, TallyOf;
      Take();
      if !server {
        Discard();
      } else if ok {
        Succeed();
      } else {
        Fail();
        assert {} + old(counts.Keys) == old(counts.Keys);
      }
    }
  }

  lemma SizeAfter(was: set<CountKey>, taken: set<CountKey>, now: set<CountKey>, cap: int)
    requires was <= now <= was + taken && |now| <= Max(|was|, cap)
    requires now != was + taken ==> |now| >= cap
    ensures |now| == Max(|was|, Min(cap, |was + taken|))
  {
    Subset(was, now);
    Subset(now, was + taken);
  }

  lemma Subset(a: set<CountKey>, b: set<CountKey>)
    requires a <= b
    ensures |a| <= |b|
  {
    assert b == a + (b - a);
  }

  // --- steps ------------------------------------------------------------------------------------------

  /** The start of the agent bucket that holds time t. */
  function AgentBucket(t: nat, step: int): int
    requires step > 0
  {
    t / step * step
  }

  /** Does the server with step length server accept a push from an agent with this step length? */
  predicate Accepts(server: int, step: int) {
    step >= 0 && (step > 0 ==> server % step == 0)
  }

  /** A positive step is accepted exactly when every time falls into the same server bucket as the
      start of its agent bucket, so that counts land in the bucket their lines belong to. */
  lemma StepsNest(server: int, step: int)
    requires server > 0
    ensures step > 0 ==> (Accepts(server, step) <==> forall t: nat :: AgentBucket(t, step) / server == t / server)
    ensures step <= 0 ==> (Accepts(server, step) <==> step == 0)
  {
    if step <= 0 {
    } else if server % step == 0 {
      forall t: nat ensures AgentBucket(t, step) / server == t / server {
        Nested(t, server, step);
      }
    } else {
      var a := AgentBucket(server, step);
      assert server == (server / step) * step + server % step;
      assert a < server;
      Division(a, 0, server);
      Division(server, 1, server);
    }
  }

  lemma Nested(t: nat, server: int, step: int)
    requires server > 0 && step > 0 && server % step == 0
    ensures AgentBucket(t, step) / server == t / server
  {
    var q, r, n := t / server, t % server, server / step;
    assert server == n * step;
    assert t == q * server + r;
    var i, j := r / step, r % step;
    assert r == i * step + j;
    assert q * server == (q * n) * step;
    assert t == (q * n + i) * step + j by {
      assert (q * n + i) * step == (q * n) * step + i * step;
    }
    Division(t, q * n + i, step);
    assert AgentBucket(t, step) == q * server + i * step;
    assert i * step >= 0;
    Division(AgentBucket(t, step), q, server);
  }
}
