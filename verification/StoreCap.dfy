/** The series store under concurrent calls: 64 locked shards, a cap on the number of series, and
    one atomic counter that is read before an insertion and bumped after it. A step is what one
    goroutine does between two points where others can run. */
module StoreCap {
  import opened Options

  const SHARDS: nat := 64

  type Key = string

  /** Where a goroutine is inside Update, UpdateBytes or Delete. */
  datatype Pc =
    | Out
    | Entered(key: Key)                  // holds the shard of key
    | Passed(key: Key)                   // key was absent and the counter below the cap
    | Inserted(key: Key)                 // series inserted, counter not yet bumped
    | Running(key: Key)                  // runs its callback on the series, then unlocks
    | Refused(key: Key)                  // gives up, then unlocks
    | Between(shard: nat, removed: nat)  // Delete, before locking a shard
    | Inside(shard: nat, removed: nat)   // Delete, holding a shard

  datatype State = State(shards: seq<set<Key>>, locks: seq<Option<nat>>, n: int, dropped: nat, pcs: seq<Pc>)

  datatype Step =
    | Enter(t: nat, key: Key)
    | Check(t: nat)
    | Insert(t: nat)
    | Bump(t: nat)
    | Leave(t: nat)
    | StartDelete(t: nat)
    | LockShard(t: nat)
    | Remove(t: nat, gone: set<Key>)
    | Finish(t: nat)

  /** The hash that assigns keys to shards, and the cap; 0 or less means no cap. */
  datatype Config = Config(hash: Key -> nat, maxSeries: int)
  {
    function ShardOf(key: Key): (i: nat)
      ensures i < SHARDS
    {
      hash(key) % SHARDS
    }
  }

  predicate Shaped(s: State) {
    |s.shards| == SHARDS && |s.locks| == SHARDS
  }

  predicate Enabled(c: Config, s: State, step: Step)
    requires Shaped(s)
  {
    step.t < |s.pcs| && match step
      case Enter(t, key) => s.pcs[t] == Out && s.locks[c.ShardOf(key)] == None
      case Check(t) => s.pcs[t].Entered?
      case Insert(t) => s.pcs[t].Passed?
      case Bump(t) => s.pcs[t].Inserted?
      case Leave(t) => s.pcs[t].Running? || s.pcs[t].Refused?
      case StartDelete(t) => s.pcs[t] == Out
      case LockShard(t) => s.pcs[t].Between? && s.pcs[t].shard < SHARDS && s.locks[s.pcs[t].shard] == None
      case Remove(t, _) => s.pcs[t].Inside? && s.pcs[t].shard < SHARDS
      case Finish(t) => s.pcs[t].Between? && s.pcs[t].shard == SHARDS
  }

  function After(c: Config, s: State, step: Step): State
    requires Shaped(s) && Enabled(c, s, step)
  {
    var t, pc := step.t, s.pcs[step.t];
    match step
    case Enter(_, key) => s.(locks := s.locks[c.ShardOf(key) := Some(t)], pcs := s.pcs[t := Entered(key)])
    case Check(_) =>
      if pc.key in s.shards[c.ShardOf(pc.key)] then s.(pcs := s.pcs[t := Running(pc.key)])
      else if c.maxSeries > 0 && s.n >= c.maxSeries then s.(dropped := s.dropped + 1, pcs := s.pcs[t := Refused(pc.key)])
      else s.(pcs := s.pcs[t := Passed(pc.key)])
    case Insert(_) =>
      var i := c.ShardOf(pc.key);
      s.(shards := s.shards[i := s.shards[i] + {pc.key}], pcs := s.pcs[t := Inserted(pc.key)])
    case Bump(_) => s.(n := s.n + 1, pcs := s.pcs[t := Running(pc.key)])
    case Leave(_) => s.(locks := s.locks[c.ShardOf(pc.key) := None], pcs := s.pcs[t := Out])
    case StartDelete(_) => s.(pcs := s.pcs[t := Between(0, 0)])
    case LockShard(_) => s.(locks := s.locks[pc.shard := Some(t)], pcs := s.pcs[t := Inside(pc.shard, pc.removed)])
    case Remove(_, gone) =>
      var i := pc.shard;
      s.(shards := s.shards[i := s.shards[i] - gone], locks := s.locks[i := None],
         pcs := s.pcs[t := Between(i + 1, pc.removed + |s.shards[i] * gone|)])
    case Finish(_) => s.(n := s.n - pc.removed, pcs := s.pcs[t := Out])
  }

  // --- counting ---------------------------------------------------------------------------------

  /** The number of series in the store. */
  function Held(shards: seq<set<Key>>): nat {
    if shards == [] then 0 else |shards[0]| + Held(shards[1..])
  }

  function Total(pcs: seq<Pc>, f: Pc -> int): int {
    if pcs == [] then 0 else f(pcs[0]) + Total(pcs[1..], f)
  }

  function Locked(locks: seq<Option<nat>>): nat {
    if locks == [] then 0 else (if locks[0] == None then 0 else 1) + Locked(locks[1..])
  }

  /** Series of this goroutine that are inserted but not counted yet. */
  function Ahead(pc: Pc): int { if pc.Inserted? then 1 else 0 }

  /** Series this goroutine removed but has not subtracted yet. */
  function Debt(pc: Pc): int { if pc.Between? || pc.Inside? then pc.removed else 0 }

  /** Is it past the cap check, but not past the bump? */
  function Window(pc: Pc): int { if pc.Passed? || pc.Inserted? then 1 else 0 }

  function Holds(pc: Pc): int { if pc.Out? || pc.Between? then 0 else 1 }

  lemma {:induction false} HeldUpdate(shards: seq<set<Key>>, i: nat, x: set<Key>)
    requires i < |shards|
    ensures Held(shards[i := x]) == Held(shards) - |shards[i]| + |x|
  {
    if i > 0 {
      assert shards[i := x][1..] == shards[1..][i - 1 := x];
      HeldUpdate(shards[1..], i - 1, x);
    } else {
      assert shards[i := x][1..] == shards[1..];
    }
  }

  lemma {:induction false} TotalUpdate(pcs: seq<Pc>, t: nat, pc: Pc, f: Pc -> int)
    requires t < |pcs|
    ensures Total(pcs[t := pc], f) == Total(pcs, f) - f(pcs[t]) + f(pc)
  {
    if t > 0 {
      assert pcs[t := pc][1..] == pcs[1..][t - 1 := pc];
      TotalUpdate(pcs[1..], t - 1, pc, f);
    } else {
      assert pcs[t := pc][1..] == pcs[1..];
    }
  }

  lemma {:induction false} LockedUpdate(locks: seq<Option<nat>>, i: nat, x: Option<nat>)
    requires i < |locks|
    ensures Locked(locks[i := x]) == Locked(locks) - (if locks[i] == None then 0 else 1) + (if x == None then 0 else 1)
  {
    if i > 0 {
      assert locks[i := x][1..] == locks[1..][i - 1 := x];
      LockedUpdate(locks[1..], i - 1, x);
    } else {
      assert locks[i := x][1..] == locks[1..];
    }
  }

  lemma {:induction false} LockedBound(locks: seq<Option<nat>>)
    ensures Locked(locks) <= |locks|
  {
    if locks != [] {
      LockedBound(locks[1..]);
    }
  }

  lemma {:induction false} TotalsCompare(pcs: seq<Pc>)
    ensures 0 <= Total(pcs, Ahead) <= Total(pcs, Window) <= Total(pcs, Holds)
    ensures Total(pcs, Debt) >= 0
  {
    if pcs != [] {
      TotalsCompare(pcs[1..]);
    }
  }

  /** What one goroutine's move does to all four sums. */
  lemma TotalsUpdate(pcs: seq<Pc>, t: nat, pc: Pc)
    requires t < |pcs|
    ensures Total(pcs[t := pc], Ahead) == Total(pcs, Ahead) - Ahead(pcs[t]) + Ahead(pc)
    ensures Total(pcs[t := pc], Debt) == Total(pcs, Debt) - Debt(pcs[t]) + Debt(pc)
    ensures Total(pcs[t := pc], Window) == Total(pcs, Window) - Window(pcs[t]) + Window(pc)
    ensures Total(pcs[t := pc], Holds) == Total(pcs, Holds) - Holds(pcs[t]) + Holds(pc)
  {
    TotalUpdate(pcs, t, pc, Ahead);
    TotalUpdate(pcs, t, pc, Debt);
    TotalUpdate(pcs, t, pc, Window);
    TotalUpdate(pcs, t, pc, Holds);
  }

  // --- the invariant ----------------------------------------------------------------------------

  /** The shard a goroutine has locked. */
  function Holding(c: Config, pc: Pc): Option<nat> {
    match pc
    case Out => None
    case Between(_, _) => None
    case Inside(i, _) => Some(i)
    case _ => Some(c.ShardOf(pc.key))
  }

  /** A goroutine's lock is its own. The key of one that passed the check or gives up is absent, that of one that
      runs its callback or is about to is there. */
  ghost predicate Steady(c: Config, s: State, t: nat)
    requires Shaped(s) && t < |s.pcs|
  {
    var pc := s.pcs[t];
    && (Holding(c, pc) != None ==> Holding(c, pc).value < SHARDS && s.locks[Holding(c, pc).value] == Some(t))
    && (pc.Passed? || pc.Refused? ==> pc.key !in s.shards[c.ShardOf(pc.key)])
    && (pc.Inserted? || pc.Running? ==> pc.key in s.shards[c.ShardOf(pc.key)])
    && (pc.Between? ==> pc.shard <= SHARDS)
  }

  ghost predicate AllSteady(c: Config, s: State)
    requires Shaped(s)
  {
    forall t {:trigger Steady(c, s, t)} :: 0 <= t < |s.pcs| ==> Steady(c, s, t)
  }

  ghost predicate Counted(c: Config, s: State) {
    && Total(s.pcs, Holds) == Locked(s.locks)
    && s.n == Held(s.shards) - Total(s.pcs, Ahead) + Total(s.pcs, Debt)
    && (c.maxSeries > 0 ==> s.n + Total(s.pcs, Window) <= c.maxSeries + SHARDS - 1)
  }

  ghost predicate Inv(c: Config, s: State) {
    Shaped(s) && AllSteady(c, s) && Counted(c, s)
  }

  ghost predicate Init(c: Config, s: State) {
    && Shaped(s) && (forall i :: 0 <= i < SHARDS ==> s.locks[i] == None)
    && (forall t :: 0 <= t < |s.pcs| ==> s.pcs[t] == Out)
    && s.n == Held(s.shards) && (c.maxSeries > 0 ==> s.n <= c.maxSeries)
  }

  lemma {:induction false} NoneLocked(locks: seq<Option<nat>>)
    requires forall i :: 0 <= i < |locks| ==> locks[i] == None
    ensures Locked(locks) == 0
  {
    if locks != [] {
      NoneLocked(locks[1..]);
    }
  }

  lemma {:induction false} AllOut(pcs: seq<Pc>)
    requires forall t :: 0 <= t < |pcs| ==> pcs[t] == Out
    ensures Total(pcs, Ahead) == Total(pcs, Debt) == Total(pcs, Window) == Total(pcs, Holds) == 0
  {
    if pcs != [] {
      AllOut(pcs[1..]);
    }
  }

  lemma InitInv(c: Config, s: State)
    requires Init(c, s)
    ensures Inv(c, s)
  {
    NoneLocked(s.locks);
    AllOut(s.pcs);
  }

  lemma StepKeepsSteady(c: Config, s: State, step: Step)
    requires Shaped(s) && AllSteady(c, s) && Enabled(c, s, step)
    ensures Shaped(After(c, s, step)) && AllSteady(c, After(c, s, step))
  {
    var s' := After(c, s, step);
    assert Steady(c, s, step.t);
    forall t | 0 <= t < |s'.pcs| ensures Steady(c, s', t) {
      assert Steady(c, s, t);
    }
  }

  lemma StepKeepsCount(c: Config, s: State, step: Step)
    requires Inv(c, s) && Enabled(c, s, step)
    ensures Counted(c, After(c, s, step))
  {
    hide Held, Locked, Total;
    var t, s' := step.t, After(c, s, step);
    var pc := s.pcs[t];
    assert Steady(c, s, t);
    TotalsUpdate(s.pcs, t, s'.pcs[t]);
    match step
    case Enter(_, key) => LockedUpdate(s.locks, c.ShardOf(key), Some(t));
    case Check(_) =>
      TotalsCompare(s'.pcs);
      LockedBound(s.locks);
    case Insert(_) => HeldUpdate(s.shards, c.ShardOf(pc.key), s.shards[c.ShardOf(pc.key)] + {pc.key});
    case Leave(_) => LockedUpdate(s.locks, c.ShardOf(pc.key), None);
    case LockShard(_) => LockedUpdate(s.locks, pc.shard, Some(t));
    case Remove(_, gone) =>
      LockedUpdate(s.locks, pc.shard, None);
      HeldUpdate(s.shards, pc.shard, s.shards[pc.shard] - gone);
    case _ =>
  }

  lemma StepKeepsInv(c: Config, s: State, step: Step)
    requires Inv(c, s) && Enabled(c, s, step)
    ensures Inv(c, After(c, s, step))
  {
    StepKeepsSteady(c, s, step);
    StepKeepsCount(c, s, step);
  }

  /** The store never holds more than the cap and one series for each other shard. */
  lemma HeldBound(c: Config, s: State)
    requires Inv(c, s) && c.maxSeries > 0
    ensures Held(s.shards) <= c.maxSeries + SHARDS - 1
  {
    TotalsCompare(s.pcs);
  }

  /** With no call in progress the counter is the number of series held. */
  lemma QuietCounter(c: Config, s: State)
    requires Inv(c, s) && forall t :: 0 <= t < |s.pcs| ==> s.pcs[t] == Out
    ensures s.n == Held(s.shards)
  {
    AllOut(s.pcs);
  }

  // --- runs -------------------------------------------------------------------------------------

  ghost predicate IsRun(c: Config, run: seq<State>, steps: seq<Step>) {
    && |run| == |steps| + 1 && Init(c, run[0])
    && forall k :: 0 <= k < |steps| ==> Shaped(run[k]) && Enabled(c, run[k], steps[k]) && run[k+1] == After(c, run[k], steps[k])
  }

  lemma {:induction false} RunInv(c: Config, run: seq<State>, steps: seq<Step>, k: nat)
    requires IsRun(c, run, steps) && k < |run|
    ensures Inv(c, run[k])
  {
    if k == 0 {
      InitInv(c, run[0]);
    } else {
      RunInv(c, run, steps, k - 1);
      StepKeepsInv(c, run[k-1], steps[k-1]);
    }
  }

  /** Over any run of any number of goroutines: the cap is overshot by at most 63 series, and the
      counter is exact whenever no call is in progress. */
  lemma RunBounds(c: Config, run: seq<State>, steps: seq<Step>, k: nat)
    requires IsRun(c, run, steps) && k < |run|
    ensures c.maxSeries > 0 ==> Held(run[k].shards) <= c.maxSeries + 63
    ensures (forall t :: 0 <= t < |run[k].pcs| ==> run[k].pcs[t] == Out) ==> run[k].n == Held(run[k].shards)
  {
    RunInv(c, run, steps, k);
    if c.maxSeries > 0 {
      HeldBound(c, run[k]);
    }
    if forall t :: 0 <= t < |run[k].pcs| ==> run[k].pcs[t] == Out {
      QuietCounter(c, run[k]);
    }
  }

  // --- what a call comes to -------------------------------------------------------------------------

  predicate HasKey(c: Config, s: State, key: Key) {
    Shaped(s) && key in s.shards[c.ShardOf(key)]
  }

  /** Where a goroutine can be in an update of key, which was there or not when the update locked its shard: of a
      key that is there the callback runs, and one that gives up had none. */
  predicate Updating(c: Config, s: State, pc: Pc, key: Key, was: bool) {
    match pc
    case Entered(k) => k == key && (HasKey(c, s, key) <==> was)
    case Passed(k) => k == key && !was && !HasKey(c, s, key)
    case Inserted(k) => k == key && !was && HasKey(c, s, key)
    case Running(k) => k == key && HasKey(c, s, key)
    case Refused(k) => k == key && !was && !HasKey(c, s, key) && c.maxSeries > 0
    case _ => false
  }

  lemma StepOfOther(c: Config, s: State, step: Step, t: nat, key: Key)
    requires Inv(c, s) && Enabled(c, s, step) && step.t != t && t < |s.pcs| && Holding(c, s.pcs[t]) == Some(c.ShardOf(key))
    ensures var u := After(c, s, step); t < |u.pcs| && u.pcs[t] == s.pcs[t] && (HasKey(c, u, key) <==> HasKey(c, s, key))
  {
    hide Counted;
    assert Steady(c, s, t) && Steady(c, s, step.t);
  }

  lemma StepOfCall(c: Config, s: State, step: Step, key: Key, was: bool)
    requires Inv(c, s) && Enabled(c, s, step) && !step.Leave? && Updating(c, s, s.pcs[step.t], key, was)
    ensures var u := After(c, s, step); Updating(c, u, u.pcs[step.t], key, was)
  {
    hide Counted, AllSteady;
  }

  /** In any run, from where an update locks the shard of its key until it unlocks it: whatever others do meanwhile,
      an update of a key that is there does not give up, and one that gives up leaves the key out. */
  lemma {:induction false} UpdateOutcome(c: Config, run: seq<State>, steps: seq<Step>, i: nat, j: nat, t: nat, key: Key)
    requires IsRun(c, run, steps) && i < j < |run| && steps[i] == Enter(t, key)
    requires forall n :: i < n < j ==> steps[n] != Leave(t)
    ensures t < |run[j].pcs| && Updating(c, run[j], run[j].pcs[t], key, HasKey(c, run[i], key))
  {
    hide After, Enabled, HasKey, Updating, Inv, Init;
    RunInv(c, run, steps, j - 1);
    if j == i + 1 {
      UpdateStarts(c, run[i], t, key);
    } else {
      UpdateOutcome(c, run, steps, i, j - 1, t, key);
      var was := HasKey(c, run[i], key);
      if steps[j-1].t == t {
        NotLeaving(steps[j-1], t);
        StepOfCall(c, run[j-1], steps[j-1], key, was);
        SameCount(c, run[j-1], steps[j-1]);
      } else {
        UpdatingHolds(c, run[j-1], run[j-1].pcs[t], key, was);
        StepOfOther(c, run[j-1], steps[j-1], t, key);
        SameUpdating(c, run[j-1], run[j], run[j].pcs[t], key, was);
      }
    }
  }

  lemma UpdateStarts(c: Config, s: State, t: nat, key: Key)
    requires Shaped(s) && Enabled(c, s, Enter(t, key))
    ensures var u := After(c, s, Enter(t, key)); t < |u.pcs| && Updating(c, u, u.pcs[t], key, HasKey(c, s, key))
  {
  }

  lemma NotLeaving(step: Step, t: nat)
    requires step.t == t && step != Leave(t)
    ensures !step.Leave?
  {
  }

  lemma SameCount(c: Config, s: State, step: Step)
    requires Shaped(s) && Enabled(c, s, step)
    ensures |After(c, s, step).pcs| == |s.pcs| && step.t < |s.pcs|
  {
  }

  lemma UpdatingHolds(c: Config, s: State, pc: Pc, key: Key, was: bool)
    requires Updating(c, s, pc, key, was)
    ensures Holding(c, pc) == Some(c.ShardOf(key))
  {
  }

  lemma SameUpdating(c: Config, s: State, u: State, pc: Pc, key: Key, was: bool)
    requires Updating(c, s, pc, key, was) && (HasKey(c, u, key) <==> HasKey(c, s, key))
    ensures Updating(c, u, pc, key, was)
  {
  }

  /** A call gives up exactly if its key is absent when it looks and the counter is at the cap then. So it only gives
      up while the store holds at least the cap, or did but for removals that a Delete in progress has not counted yet. */
  lemma GivesUpExactly(c: Config, s: State, t: nat)
    requires Inv(c, s) && Enabled(c, s, Check(t))
    ensures var u, key := After(c, s, Check(t)), s.pcs[t].key;
      && (u.pcs[t] == Refused(key) <==> !HasKey(c, s, key) && 0 < c.maxSeries <= s.n)
      && (HasKey(c, s, key) ==> u.pcs[t] == Running(key))
      && (u.pcs[t] == Refused(key) ==> Held(s.shards) + Total(s.pcs, Debt) >= c.maxSeries)
  {
    hide Held, Total, AllSteady;
    TotalsCompare(s.pcs);
  }

  /** Step k is where goroutine t takes what its Delete selects out of shard x, which it holds. */
  predicate Sweeps(c: Config, run: seq<State>, steps: seq<Step>, k: nat, t: nat, x: nat) {
    && k < |steps| && k + 1 < |run| && steps[k].Remove? && steps[k].t == t && t < |run[k].pcs| && run[k].pcs[t].Inside?
    && run[k].pcs[t].shard == x < |run[k].shards| && |run[k+1].shards| == |run[k].shards|
    && run[k+1].shards[x] == run[k].shards[x] - steps[k].gone
  }

  predicate Deleting(pc: Pc, x: nat) {
    (pc.Between? || pc.Inside?) && x < pc.shard
  }

  /** A Delete in progress has swept all shards before the one it is at. */
  lemma {:induction false} DeleteSweeps(c: Config, run: seq<State>, steps: seq<Step>, i: nat, j: nat, t: nat, x: nat)
    requires IsRun(c, run, steps) && i < j < |run| && steps[i] == StartDelete(t)
    requires forall n :: i < n < j ==> steps[n] != Finish(t)
    ensures t < |run[j].pcs| && (run[j].pcs[t].Between? || run[j].pcs[t].Inside?)
    ensures Deleting(run[j].pcs[t], x) ==> exists k :: i < k < j && Sweeps(c, run, steps, k, t, x)
  {
    hide Init, After, Enabled, Sweeps;
    if j == i + 1 {
      DeleteStarts(c, run[i], t);
    } else {
      DeleteSweeps(c, run, steps, i, j - 1, t, x);
      SweepStep(c, run, steps, j - 1, t, x);
    }
  }

  lemma DeleteStarts(c: Config, s: State, t: nat)
    requires Shaped(s) && Enabled(c, s, StartDelete(t))
    ensures var u := After(c, s, StartDelete(t)); t < |u.pcs| && u.pcs[t] == Between(0, 0)
  {
  }

  lemma SweepStep(c: Config, run: seq<State>, steps: seq<Step>, k: nat, t: nat, x: nat)
    requires k < |steps| && k + 1 < |run| && Shaped(run[k]) && Enabled(c, run[k], steps[k])
    requires run[k+1] == After(c, run[k], steps[k]) && steps[k] != Finish(t)
    requires t < |run[k].pcs| && (run[k].pcs[t].Between? || run[k].pcs[t].Inside?)
    ensures t < |run[k+1].pcs| && (run[k+1].pcs[t].Between? || run[k+1].pcs[t].Inside?)
    ensures Deleting(run[k+1].pcs[t], x) && !Deleting(run[k].pcs[t], x) ==> Sweeps(c, run, steps, k, t, x)
  {
  }

  /** One that finishes has swept all 64. */
  lemma DeleteSweepsAll(c: Config, run: seq<State>, steps: seq<Step>, i: nat, j: nat, t: nat, x: nat)
    requires IsRun(c, run, steps) && i < j < |steps| && steps[i] == StartDelete(t) && steps[j] == Finish(t)
    requires (forall n :: i < n < j ==> steps[n] != Finish(t)) && x < 64
    ensures exists k :: i < k < j && Sweeps(c, run, steps, k, t, x)
  {
    hide Init, Sweeps;
    DeleteSweeps(c, run, steps, i, j, t, x);
    assert Shaped(run[j]) && Enabled(c, run[j], steps[j]);
  }

  /** How many calls have given up in the first k steps. */
  function GivenUp(run: seq<State>, steps: seq<Step>, k: nat): nat
    requires k <= |steps| < |run|
  {
    if k == 0 then 0
    else
      var t := steps[k-1].t;
      GivenUp(run, steps, k - 1)
      + if t < |run[k-1].pcs| && t < |run[k].pcs| && !run[k-1].pcs[t].Refused? && run[k].pcs[t].Refused? then 1 else 0
  }

  /** That is what the store counts as dropped. */
  lemma {:induction false} DroppedIs(c: Config, run: seq<State>, steps: seq<Step>, k: nat)
    requires IsRun(c, run, steps) && k <= |steps|
    ensures run[k].dropped == run[0].dropped + GivenUp(run, steps, k)
  {
    if k > 0 {
      DroppedIs(c, run, steps, k - 1);
      assert Enabled(c, run[k-1], steps[k-1]) && run[k] == After(c, run[k-1], steps[k-1]);
    }
  }

  // --- no call hangs --------------------------------------------------------------------------------

  /** A locked shard is held by the goroutine that the lock names. */
  ghost predicate Owned(c: Config, s: State, i: nat)
    requires Shaped(s) && i < SHARDS
  {
    match s.locks[i]
    case None => true
    case Some(t) => t < |s.pcs| && Holding(c, s.pcs[t]) == Some(i)
  }

  ghost predicate AllOwned(c: Config, s: State)
    requires Shaped(s)
  {
    forall i {:trigger Owned(c, s, i)} :: 0 <= i < SHARDS ==> Owned(c, s, i)
  }

  lemma StepKeepsOwned(c: Config, s: State, step: Step)
    requires Inv(c, s) && AllOwned(c, s) && Enabled(c, s, step)
    ensures Shaped(After(c, s, step)) && AllOwned(c, After(c, s, step))
  {
    hide Counted;
    var u := After(c, s, step);
    assert Steady(c, s, step.t);
    forall i | 0 <= i < SHARDS ensures Owned(c, u, i) {
      assert Owned(c, s, i);
    }
  }

  lemma {:induction false} RunOwned(c: Config, run: seq<State>, steps: seq<Step>, k: nat)
    requires IsRun(c, run, steps) && k < |run|
    ensures Shaped(run[k]) && AllOwned(c, run[k])
  {
    hide After, Enabled, Owned, Inv;
    if k == 0 {
      InitOwned(c, run[0]);
    } else {
      RunInv(c, run, steps, k - 1);
      RunOwned(c, run, steps, k - 1);
      StepKeepsOwned(c, run[k-1], steps[k-1]);
    }
  }

  lemma InitOwned(c: Config, s: State)
    requires Init(c, s)
    ensures Shaped(s) && AllOwned(c, s)
  {
  }

  /** What goroutine t does next. */
  function NextStep(pc: Pc, t: nat): Step {
    match pc
    case Out => StartDelete(t)
    case Entered(_) => Check(t)
    case Passed(_) => Insert(t)
    case Inserted(_) => Bump(t)
    case Running(_) => Leave(t)
    case Refused(_) => Leave(t)
    case Between(i, _) => if i < SHARDS then LockShard(t) else Finish(t)
    case Inside(_, _) => Remove(t, {})
  }

  /** In any state that a run reaches, each goroutine can go on but for one that waits for a shard, and that shard is
      held by one that can. So there is no deadlock. */
  lemma NoDeadlock(c: Config, run: seq<State>, steps: seq<Step>, k: nat, t: nat)
    requires IsRun(c, run, steps) && k < |run| && t < |run[k].pcs|
    ensures var s := run[k];
      Shaped(s) && (Enabled(c, s, NextStep(s.pcs[t], t))
                    || exists u :: 0 <= u < |s.pcs| && Holding(c, s.pcs[u]) != None && Enabled(c, s, NextStep(s.pcs[u], u)))
  {
    hide IsRun, Counted;
    RunInv(c, run, steps, k);
    RunOwned(c, run, steps, k);
    var s := run[k];
    assert Steady(c, s, t);
    if !Enabled(c, s, NextStep(s.pcs[t], t)) {
      var i := s.pcs[t].shard;
      assert Owned(c, s, i);
      var u := s.locks[i].value;
      assert Steady(c, s, u);
      assert Enabled(c, s, NextStep(s.pcs[u], u));
    }
  }

  // --- calls that do not overlap ------------------------------------------------------------------

  /** No goroutine but t is inside a call. */
  predicate Alone(s: State, t: nat) {
    t < |s.pcs| && forall u :: 0 <= u < |s.pcs| && u != t ==> s.pcs[u] == Out
  }

  /** Every call starts when no other is in progress. */
  predicate Serial(run: seq<State>, steps: seq<Step>) {
    forall k :: 0 <= k < |steps| < |run| && (steps[k].Enter? || steps[k].StartDelete?) ==> Alone(run[k], steps[k].t)
  }

  lemma AloneTotals(s: State, t: nat)
    requires Alone(s, t)
    ensures Total(s.pcs, Ahead) == Ahead(s.pcs[t]) && Total(s.pcs, Debt) == Debt(s.pcs[t])
  {
    TotalsUpdate(s.pcs, t, Out);
    AllOut(s.pcs[t := Out]);
  }

  /** Room is left for the one series that may have passed the check. */
  ghost predicate Roomy(c: Config, s: State, t: nat) {
    Alone(s, t) && Held(s.shards) + (if s.pcs[t].Passed? then 1 else 0) <= c.maxSeries
  }

  lemma {:induction false} SerialRoomy(c: Config, run: seq<State>, steps: seq<Step>, k: nat)
    requires IsRun(c, run, steps) && Serial(run, steps) && k < |run| && c.maxSeries > 0 && |run[0].pcs| > 0
    ensures exists t: nat :: Roomy(c, run[k], t)
  {
    hide IsRun, Serial, Inv, Roomy, Alone, After, Enabled, Held;
    if k == 0 {
      RoomyAtStart(c, run, steps);
    } else {
      SerialRoomy(c, run, steps, k - 1);
      RunInv(c, run, steps, k - 1);
      var t: nat :| Roomy(c, run[k-1], t);
      StepOfRun(c, run, steps, k - 1);
      RoomyMoves(c, run[k-1], steps[k-1], t);
      RoomyStep(c, run[k-1], steps[k-1]);
    }
  }

  lemma RoomyAtStart(c: Config, run: seq<State>, steps: seq<Step>)
    requires IsRun(c, run, steps) && c.maxSeries > 0 && |run[0].pcs| > 0
    ensures Roomy(c, run[0], 0)
  {
    assert Alone(run[0], 0);
  }

  lemma StepOfRun(c: Config, run: seq<State>, steps: seq<Step>, k: nat)
    requires IsRun(c, run, steps) && Serial(run, steps) && k + 1 < |run|
    ensures k < |steps| && Shaped(run[k]) && Enabled(c, run[k], steps[k]) && run[k+1] == After(c, run[k], steps[k])
    ensures steps[k].Enter? || steps[k].StartDelete? ==> Alone(run[k], steps[k].t)
  {
  }

  /** With room for one goroutine, there is room for whichever takes the next step. */
  lemma RoomyMoves(c: Config, s: State, step: Step, t: nat)
    requires Inv(c, s) && Roomy(c, s, t) && Enabled(c, s, step)
    requires step.Enter? || step.StartDelete? ==> Alone(s, step.t)
    ensures Roomy(c, s, step.t)
  {
    hide Held, Inv;
    if step.t != t {
      assert s.pcs[step.t] == Out;
    }
  }

  lemma RoomyStep(c: Config, s: State, step: Step)
    requires Inv(c, s) && c.maxSeries > 0 && Enabled(c, s, step) && Roomy(c, s, step.t)
    ensures Roomy(c, After(c, s, step), step.t)
  {
    var pc := s.pcs[step.t];
    AloneTotals(s, step.t);
    match step
    case Insert(_) => HeldUpdate(s.shards, c.ShardOf(pc.key), s.shards[c.ShardOf(pc.key)] + {pc.key});
    case Remove(_, gone) => HeldUpdate(s.shards, pc.shard, s.shards[pc.shard] - gone);
    case _ =>
  }

  /** Calls that do not overlap never exceed the cap. */
  lemma SerialBound(c: Config, run: seq<State>, steps: seq<Step>, k: nat)
    requires IsRun(c, run, steps) && Serial(run, steps) && k < |run| && c.maxSeries > 0 && |run[0].pcs| > 0
    ensures Held(run[k].shards) <= c.maxSeries
  {
    SerialRoomy(c, run, steps, k);
  }

  // --- the bound is reached ---------------------------------------------------------------------

  function LongKey(i: nat): Key {
    seq(i, _ => 'a')
  }

  function Tight(cap: nat): Config {
    Config((key: Key) => |key|, cap)
  }

  /** held series are stored; k of 64 goroutines have passed the check, each on its own shard; j of them
      have inserted a series there. */
  predicate Crowd(s: State, held: nat, k: nat, j: nat) {
    && Shaped(s) && |s.pcs| == SHARDS && j <= k <= SHARDS && s.n == held && Held(s.shards) == held + j
    && forall i {:trigger s.pcs[i]} {:trigger s.locks[i]} {:trigger s.shards[i]} :: 0 <= i < SHARDS ==>
         && s.locks[i] == (if i < k then Some(i) else None)
         && s.pcs[i] == (if i < j then Inserted(LongKey(i)) else if i < k then Passed(LongKey(i)) else Out)
         && (i >= j ==> LongKey(i) !in s.shards[i])
  }

  lemma Extend(c: Config, run: seq<State>, steps: seq<Step>, step: Step)
    requires IsRun(c, run, steps) && Shaped(run[|run|-1]) && Enabled(c, run[|run|-1], step)
    ensures IsRun(c, run + [After(c, run[|run|-1], step)], steps + [step])
  {
  }

  /** n keys that are longer than those of the goroutines. */
  function Stored(n: nat): (keys: set<Key>)
    ensures |keys| == n && forall x :: x in keys ==> SHARDS <= |x| < SHARDS + n
  {
    if n == 0 then {} else Stored(n - 1) + {LongKey(SHARDS + n - 1)}
  }

  /** A store that holds cap - 1 series, none of which a goroutine is going to insert. */
  lemma AlmostFull(cap: nat) returns (s: State)
    requires cap > 0
    ensures Init(Tight(cap), s) && Crowd(s, cap - 1, 0, 0)
  {
    hide Stored, LongKey;
    s := State([Stored(cap - 1)] + seq(SHARDS - 1, _ => {}), seq(SHARDS, _ => None), cap - 1, 0, seq(SHARDS, _ => Out));
    EmptyHeld(s.shards[1..]);
    forall i | 0 <= i < SHARDS ensures LongKey(i) !in s.shards[i] {
      LongKeyLength(i);
    }
  }

  lemma LongKeyLength(i: nat)
    ensures |LongKey(i)| == i
  {
  }

  lemma EmptyHeld(shards: seq<set<Key>>)
    requires forall i :: 0 <= i < |shards| ==> shards[i] == {}
    ensures Held(shards) == 0
  {
  }

  lemma CrowdPasses(cap: nat, s: State, k: nat)
    requires cap > 0 && k < SHARDS && Crowd(s, cap - 1, k, 0)
    ensures var c, enter := Tight(cap), Enter(k, LongKey(k));
      && Enabled(c, s, enter) && Shaped(After(c, s, enter)) && Enabled(c, After(c, s, enter), Check(k))
      && Crowd(After(c, After(c, s, enter), Check(k)), cap - 1, k + 1, 0)
  {
    hide Held;
    assert Tight(cap).ShardOf(LongKey(k)) == k;
  }

  lemma {:induction false} Pass(cap: nat, k: nat) returns (run: seq<State>, steps: seq<Step>)
    requires cap > 0 && k <= SHARDS
    ensures IsRun(Tight(cap), run, steps) && Crowd(run[|run|-1], cap - 1, k, 0)
  {
    hide Held, Enabled, After;
    var c := Tight(cap);
    if k == 0 {
      var s := AlmostFull(cap);
      run, steps := [s], [];
    } else {
      run, steps := Pass(cap, k - 1);
      var s := run[|run|-1];
      CrowdPasses(cap, s, k - 1);
      Extend(c, run, steps, Enter(k - 1, LongKey(k - 1)));
      run, steps := run + [After(c, s, Enter(k - 1, LongKey(k - 1)))], steps + [Enter(k - 1, LongKey(k - 1))];
      s := run[|run|-1];
      Extend(c, run, steps, Check(k - 1));
      run, steps := run + [After(c, s, Check(k - 1))], steps + [Check(k - 1)];
    }
  }

  lemma CrowdInserts(cap: nat, s: State, j: nat)
    requires cap > 0 && j < SHARDS && Crowd(s, cap - 1, SHARDS, j)
    ensures Enabled(Tight(cap), s, Insert(j)) && Crowd(After(Tight(cap), s, Insert(j)), cap - 1, SHARDS, j + 1)
  {
    hide Held;
    assert Tight(cap).ShardOf(LongKey(j)) == j;
    HeldUpdate(s.shards, j, s.shards[j] + {LongKey(j)});
  }

  lemma {:induction false} InsertAll(cap: nat, j: nat) returns (run: seq<State>, steps: seq<Step>)
    requires cap > 0 && j <= SHARDS
    ensures IsRun(Tight(cap), run, steps) && Crowd(run[|run|-1], cap - 1, SHARDS, j)
  {
    hide Held, Enabled, After;
    if j == 0 {
      run, steps := Pass(cap, SHARDS);
    } else {
      run, steps := InsertAll(cap, j - 1);
      var s := run[|run|-1];
      CrowdInserts(cap, s, j - 1);
      Extend(Tight(cap), run, steps, Insert(j - 1));
      run, steps := run + [After(Tight(cap), s, Insert(j - 1))], steps + [Insert(j - 1)];
    }
  }

  /** Whatever the cap, 64 simultaneous updates can overshoot it by 63: the bound cannot be lowered. */
  lemma BoundIsReached(cap: nat) returns (run: seq<State>, steps: seq<Step>)
    requires cap > 0
    ensures Tight(cap).maxSeries == cap && IsRun(Tight(cap), run, steps) && Held(run[|run|-1].shards) == cap + 63
  {
    run, steps := InsertAll(cap, SHARDS);
  }
}
