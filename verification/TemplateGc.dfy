/** Template metadata and its garbage collection, as a state machine whose steps are the critical
    sections of the server: pushes hold the miner lock and the metadata lock together, raw lines
    create the template and its metadata in two steps under the miner lock, and gc collects
    candidates, scans the miners one at a time, and deletes, releasing every lock in between. */
module TemplateGc {
  import opened Options

  type Service = string

  datatype Key = Key(service: Service, id: int)

  /** A miner: its live ids, the last id handed out, and the id of a raw line's new template while
      that line still holds the miner lock and has not created the metadata. */
  datatype MinerState = MinerState(live: set<int>, nextID: int, pending: Option<int>)

  datatype Gc =
    | Idle
    | Candidates(cand: set<Key>)
    | Scanning(cand: set<Key>, todo: set<Service>, live: set<Key>)

  /** tmpl says of each key with metadata whether the template is a novelty candidate. */
  datatype State = State(pool: map<Service, MinerState>, tmpl: map<Key, bool>, gc: Gc)

  datatype Step =
    | NewService(service: Service)
    | PushCreates(service: Service, evicted: set<int>, novel: bool)
    | RawCreates(service: Service, evicted: set<int>)
    | RawMeta(service: Service, novel: bool)
    | SetNovel(key: Key, novel: bool)
    | GcCollect
    | GcKeys
    | GcScan(service: Service)
    | GcDelete

  /** Creating a template hands out the next id; eviction never takes the new one. */
  function Created(m: MinerState, evicted: set<int>, pending: bool): MinerState {
    var id := m.nextID + 1;
    MinerState((m.live + {id}) - (evicted - {id}), id, if pending then Some(id) else None)
  }

  predicate Enabled(s: State, step: Step) {
    match step
    case NewService(svc) => svc !in s.pool
    case PushCreates(svc, _, _) => svc in s.pool && s.pool[svc].pending == None
    case RawCreates(svc, _) => svc in s.pool && s.pool[svc].pending == None
    case RawMeta(svc, _) => svc in s.pool && s.pool[svc].pending != None
    case SetNovel(key, _) => key in s.tmpl
    case GcCollect => s.gc == Idle
    case GcKeys => s.gc.Candidates?
    case GcScan(svc) => s.gc.Scanning? && svc in s.gc.todo && svc in s.pool && s.pool[svc].pending == None
    case GcDelete => s.gc.Scanning? && s.gc.todo == {}
  }

  function After(s: State, step: Step): State
    requires Enabled(s, step)
  {
    match step
    case NewService(svc) => s.(pool := s.pool[svc := MinerState({}, 0, None)])
    case PushCreates(svc, evicted, novel) =>
      var m := Created(s.pool[svc], evicted, false);
      s.(pool := s.pool[svc := m], tmpl := s.tmpl[Key(svc, m.nextID) := novel])
    case RawCreates(svc, evicted) => s.(pool := s.pool[svc := Created(s.pool[svc], evicted, true)])
    case RawMeta(svc, novel) =>
      var m := s.pool[svc];
      s.(pool := s.pool[svc := m.(pending := None)], tmpl := s.tmpl[Key(svc, m.pending.value) := novel])
    case SetNovel(key, novel) => s.(tmpl := s.tmpl[key := novel])
    case GcCollect => s.(gc := Candidates(set k | k in s.tmpl && !s.tmpl[k]))
    case GcKeys => s.(gc := Scanning(s.gc.cand, s.pool.Keys, {}))
    case GcScan(svc) =>
      s.(gc := s.gc.(todo := s.gc.todo - {svc}, live := s.gc.live + set id | id in s.pool[svc].live :: Key(svc, id)))
    case GcDelete =>
      s.(gc := Idle, tmpl := map k | k in s.tmpl && !(k in s.gc.cand && k !in s.gc.live && !s.tmpl[k]) :: s.tmpl[k])
  }

  predicate IsLive(s: State, k: Key) {
    k.service in s.pool && k.id in s.pool[k.service].live
  }

  /** The template exists, but the raw line that created it has not yet created its metadata. */
  predicate UnderConstruction(s: State, k: Key) {
    k.service in s.pool && s.pool[k.service].pending == Some(k.id)
  }

  /** k was handed out before now, so no later template can get it. */
  predicate Known(s: State, k: Key) {
    k.service in s.pool && k.id <= s.pool[k.service].nextID && !UnderConstruction(s, k)
  }

  /** What gc must not break: every finished live template has its metadata. */
  ghost predicate MetadataKept(s: State) {
    forall k :: IsLive(s, k) && !UnderConstruction(s, k) ==> k in s.tmpl
  }

  ghost predicate Inv(s: State) {
    && MetadataKept(s)
    && (forall svc :: svc in s.pool ==> s.pool[svc].pending == None || s.pool[svc].pending == Some(s.pool[svc].nextID))
    && (forall k :: IsLive(s, k) ==> k.id <= s.pool[k.service].nextID)
    && (forall k :: k in s.tmpl ==> Known(s, k))
    && (forall k :: !s.gc.Idle? && k in s.gc.cand ==> Known(s, k))
    && (forall k :: s.gc.Scanning? && k in s.gc.cand && IsLive(s, k) ==> k.service in s.gc.todo || k in s.gc.live)
  }

  /** A server as start-up leaves it: whatever was loaded has its metadata, and nothing runs yet. */
  ghost predicate Init(s: State) {
    s.gc == Idle && MetadataKept(s)
    && (forall svc :: svc in s.pool ==> s.pool[svc].pending == None)
    && (forall k :: IsLive(s, k) ==> k.id <= s.pool[k.service].nextID)
    && (forall k :: k in s.tmpl ==> Known(s, k))
  }

  lemma StepKeepsInv(s: State, step: Step)
    requires Inv(s) && Enabled(s, step)
    ensures Inv(After(s, step))
  {
    var s' := After(s, step);
    match step
    case NewService(svc) =>
    case PushCreates(svc, evicted, novel) => CreateKeepsInv(s, step);
    case RawCreates(svc, evicted) => CreateKeepsInv(s, step);
    case RawMeta(svc, novel) =>
      forall k | IsLive(s', k) && !UnderConstruction(s', k) ensures k in s'.tmpl {
        assert IsLive(s, k);
      }
    case SetNovel(key, novel) =>
    case GcCollect =>
    case GcKeys =>
    case GcScan(svc) =>
    case GcDelete =>
      forall k | IsLive(s', k) && !UnderConstruction(s', k) ensures k in s'.tmpl {
        assert IsLive(s, k) && k in s.tmpl;
      }
  }

  lemma CreateKeepsInv(s: State, step: Step)
    requires Inv(s) && Enabled(s, step) && (step.PushCreates? || step.RawCreates?)
    ensures Inv(After(s, step))
  {
    var s', svc := After(s, step), step.service;
    var added := Key(svc, s.pool[svc].nextID + 1);
    forall k | IsLive(s', k) && k != added ensures IsLive(s, k) {}
    forall k | Known(s, k) ensures Known(s', k) && k != added {}
    assert step.PushCreates? ==> Known(s', added);
  }

  /** Nothing but the sweep deletes metadata, and that never that of a novelty candidate or of a template that the
      scan saw. */
  lemma MetadataGoes(s: State, step: Step, key: Key)
    requires Inv(s) && Enabled(s, step) && key in s.tmpl && key !in After(s, step).tmpl
    ensures step == GcDelete && !s.tmpl[key] && key in s.gc.cand && key !in s.gc.live && !IsLive(s, key)
  {
  }

  predicate IsRun(run: seq<State>, steps: seq<Step>) {
    && |run| == |steps| + 1
    && forall i :: 0 <= i < |steps| ==> Enabled(run[i], steps[i]) && run[i+1] == After(run[i], steps[i])
  }

  /** Along every interleaving of pushes, raw lines, new services, novelty changes and any number
      of gc cycles, gc never deletes the metadata of a live template. */
  lemma {:induction false} RunKeepsMetadata(run: seq<State>, steps: seq<Step>, k: nat)
    requires IsRun(run, steps) && Init(run[0]) && k < |run|
    ensures MetadataKept(run[k])
  {
    RunInv(run, steps, k);
  }

  lemma {:induction false} RunInv(run: seq<State>, steps: seq<Step>, k: nat)
    requires IsRun(run, steps) && Init(run[0]) && k < |run|
    ensures Inv(run[k])
  {
    if k > 0 {
      RunInv(run, steps, k - 1);
      StepKeepsInv(run[k-1], steps[k-1]);
    }
  }

  /** The ids of a service's templates are never reused: what was live and is not will not be. */
  lemma {:induction false} DeadStaysDead(run: seq<State>, steps: seq<Step>, key: Key, i: nat, j: nat)
    requires IsRun(run, steps) && Init(run[0]) && i <= j < |run|
    requires key.service in run[i].pool && key.id <= run[i].pool[key.service].nextID && !IsLive(run[i], key)
    ensures key.service in run[j].pool && key.id <= run[j].pool[key.service].nextID && !IsLive(run[j], key)
  {
    if i < j {
      DeadStaysDead(run, steps, key, i, j - 1);
      RunInv(run, steps, j - 1);
    }
  }

  /** The other half: metadata of a dead template that is no novelty candidate is gone after one
      whole cycle, from the collection at step i to the deletion at step j. */
  lemma SweepCollects(run: seq<State>, steps: seq<Step>, key: Key, i: nat, j: nat)
    requires IsRun(run, steps) && Init(run[0]) && i < j < |steps|
    requires steps[i] == GcCollect && steps[j] == GcDelete
    requires forall n :: i < n < j ==> steps[n] != GcCollect && steps[n] != GcDelete
    requires key in run[i].tmpl && !run[i].tmpl[key] && !IsLive(run[i], key)
    requires key in run[j].tmpl ==> !run[j].tmpl[key]
    ensures key !in run[j+1].tmpl
  {
    RunInv(run, steps, i);
    Doomed(run, steps, key, i, j);
  }

  lemma {:induction false} Doomed(run: seq<State>, steps: seq<Step>, key: Key, i: nat, j: nat)
    requires IsRun(run, steps) && Init(run[0]) && i < j < |run|
    requires i < |steps| && steps[i] == GcCollect && forall n :: i < n < j ==> steps[n] != GcCollect && steps[n] != GcDelete
    requires key in run[i].tmpl && !run[i].tmpl[key] && !IsLive(run[i], key) && Known(run[i], key)
    ensures !IsLive(run[j], key) && !run[j].gc.Idle? && key in run[j].gc.cand && (run[j].gc.Scanning? ==> key !in run[j].gc.live)
  {
    DeadStaysDead(run, steps, key, i, j);
    if j > i + 1 {
      Doomed(run, steps, key, i, j - 1);
    }
  }

  /** The scan is over and did not see k, though its template is live and its metadata complete. */
  predicate MissedByScan(s: State, k: Key) {
    && s.gc.Scanning? && s.gc.todo == {} && k !in s.gc.live
    && k in s.tmpl && !s.tmpl[k] && IsLive(s, k) && !UnderConstruction(s, k)
  }

  /** Why candidates are taken before the scan: deleting whatever the scan did not see would lose
      the metadata of a template that a push created in the meantime. */
  lemma ScanAloneIsNotEnough()
    ensures exists run, steps :: IsRun(run, steps) && Init(run[0]) && MissedByScan(run[|run|-1], Key("a", 1))
  {
    var steps := [NewService("a"), GcCollect, GcKeys, GcScan("a"), PushCreates("a", {}, false)];
    var s0 := State(map[], map[], Idle);
    var s1 := After(s0, steps[0]);
    var s2 := After(s1, steps[1]);
    var s3 := After(s2, steps[2]);
    var s4 := After(s3, steps[3]);
    var s5 := After(s4, steps[4]);
    var run := [s0, s1, s2, s3, s4, s5];
    assert s3.gc.todo == {"a"} && s4.gc.todo == {};
    assert s4.pool["a"] == MinerState({}, 0, None);
    assert MissedByScan(s5, Key("a", 1));
    assert IsRun(run, steps) && Init(run[0]);
  }
}
