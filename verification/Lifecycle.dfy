/** The server's findings over evaluations, deliveries, garbage collection and restarts. */
module Lifecycle {
  import opened Numbers
  import opened Options
  import opened Findings
  import opened Absence
  import opened Recency
  import opened Agreement

  // --- restarts -----------------------------------------------------------------------------------------

  /** One firing finding of a snapshot, and since when an absence finding is firing. */
  datatype Saved = Saved(key: Key, subject: Subject, since: int)

  /** What a restart rebuilds. */
  datatype Table = Table(prom: Store, logs: Store, active: Active)

  /** The key without the prefix of absence findings, if it has it. */
  function Trim(k: Key): Key {
    if ABSENT_PREFIX <= k then k[|ABSENT_PREFIX|..] else k
  }

  lemma TrimAbsentKey(k: Key)
    ensures Trim(AbsentKey(k)) == k
  {
  }

  function SetFiring(s: Store, k: Key): Store
    requires k in s
  {
    s[k := s[k].(band := s[k].band.(firing := true))]
  }

  /** Re-activates one finding if its series was restored; known are the others that still make sense. */
  function RestoreOne(c: Config, t: Table, x: Saved, known: set<Key>): Table {
    match x.subject
    case Metric => if x.key in t.prom then t.(prom := SetFiring(t.prom, x.key), active := t.active[x.key := Metric]) else t
    case LogSeries => if x.key in t.logs then t.(logs := SetFiring(t.logs, x.key), active := t.active[x.key := LogSeries]) else t
    case MetricAbsent =>
      var k := Trim(x.key);
      if c.absentBuckets > 0 && k in t.prom
      then
        var gone := t.prom[k].gone.(presence := Gone, since := x.since);
        t.(prom := t.prom[k := t.prom[k].(gone := gone)], active := t.active[x.key := MetricAbsent])
      else t
    case Other => if x.key in known then t.(active := t.active[x.key := Other]) else t
  }

  function RestoreAll(c: Config, t: Table, saved: seq<Saved>, known: set<Key>): Table {
    if saved == [] then t else RestoreOne(c, RestoreAll(c, t, saved[..|saved|-1], known), saved[|saved|-1], known)
  }

  /** The findings of a list without repeated keys. */
  predicate Lists(saved: seq<Saved>, items: Active) {
    if saved == [] then items == map[]
    else
      var x := saved[|saved|-1];
      ActiveAs(items, x.key, x.subject) && Lists(saved[..|saved|-1], items - {x.key})
  }

  /** All series are there, none is marked. */
  ghost predicate Blank(t: Table) {
    && t.active == map[]
    && (forall k :: k in t.prom ==> t.prom[k].band == Initial(false) && t.prom[k].gone.presence == Here)
    && (forall k :: k in t.logs ==> t.logs[k].band == Initial(false))
  }

  predicate SameButMarks(i: Info, j: Info) {
    j.band == i.band.(firing := j.band.firing) && j.lastEval == i.lastEval && j.lastData == i.lastData
  }

  predicate RestoredAt(c: Config, base: Table, t: Table, items: Active, known: set<Key>, k: Key) {
    && (Firing(t.prom, k) <==> k in base.prom && ActiveAs(items, k, Metric))
    && (Firing(t.logs, k) <==> k in base.logs && ActiveAs(items, k, LogSeries))
    && (Absent(t.prom, k) <==> k in base.prom && c.absentBuckets > 0 && ActiveAs(items, AbsentKey(k), MetricAbsent))
    && (ActiveAs(t.active, k, Metric) <==> k in base.prom && ActiveAs(items, k, Metric))
    && (ActiveAs(t.active, k, LogSeries) <==> k in base.logs && ActiveAs(items, k, LogSeries))
    && (ActiveAs(t.active, k, Other) <==> k in known && ActiveAs(items, k, Other))
    && (ActiveAs(t.active, k, MetricAbsent) <==> c.absentBuckets > 0 && ActiveAs(items, k, MetricAbsent) && Trim(k) in base.prom)
    && (k in base.prom ==> k in t.prom && SameButMarks(base.prom[k], t.prom[k]))
    && (k in base.logs ==> k in t.logs && SameButMarks(base.logs[k], t.logs[k]))
  }

  /** What table t has become of base when the findings items were restored. */
  ghost predicate Restored(c: Config, base: Table, t: Table, items: Active, known: set<Key>) {
    && t.prom.Keys == base.prom.Keys && t.logs.Keys == base.logs.Keys
    && forall k {:trigger RestoredAt(c, base, t, items, known, k)} :: RestoredAt(c, base, t, items, known, k)
  }

  /** Was the series of x restored, or is it a finding without a series that still makes sense? */
  predicate Kept(c: Config, t: Table, x: Saved, known: set<Key>) {
    match x.subject
    case Metric => x.key in t.prom
    case LogSeries => x.key in t.logs
    case MetricAbsent => c.absentBuckets > 0 && Trim(x.key) in t.prom
    case Other => x.key in known
  }

  lemma RestoreOneFlags(c: Config, t: Table, x: Saved, known: set<Key>, k: Key)
    ensures var u, kept := RestoreOne(c, t, x, known), Kept(c, t, x, known);
      && u.prom.Keys == t.prom.Keys && u.logs.Keys == t.logs.Keys
      && (Firing(u.prom, k) <==> Firing(t.prom, k) || (kept && x.subject == Metric && k == x.key))
      && (Firing(u.logs, k) <==> Firing(t.logs, k) || (kept && x.subject == LogSeries && k == x.key))
      && (Absent(u.prom, k) <==> Absent(t.prom, k) || (kept && x.subject == MetricAbsent && k == Trim(x.key)))
      && (k in t.prom ==> SameButMarks(t.prom[k], u.prom[k])) && (k in t.logs ==> SameButMarks(t.logs[k], u.logs[k]))
  {
    hide Trim;
    match x.subject
    case Metric =>
    case LogSeries =>
    case MetricAbsent =>
    case Other =>
  }

  lemma RestoreOneActive(c: Config, t: Table, x: Saved, known: set<Key>, k: Key, s: Subject)
    ensures var u, kept := RestoreOne(c, t, x, known), Kept(c, t, x, known);
      ActiveAs(u.active, k, s) <==> if kept && k == x.key then s == x.subject else ActiveAs(t.active, k, s)
  {
    hide Trim;
  }

  lemma RestoreOneAt(c: Config, t: Table, x: Saved, known: set<Key>, k: Key)
    ensures var u, kept := RestoreOne(c, t, x, known), Kept(c, t, x, known);
      && u.prom.Keys == t.prom.Keys && u.logs.Keys == t.logs.Keys
      && (Firing(u.prom, k) <==> Firing(t.prom, k) || (kept && x.subject == Metric && k == x.key))
      && (Firing(u.logs, k) <==> Firing(t.logs, k) || (kept && x.subject == LogSeries && k == x.key))
      && (Absent(u.prom, k) <==> Absent(t.prom, k) || (kept && x.subject == MetricAbsent && k == Trim(x.key)))
      && (forall s: Subject :: ActiveAs(u.active, k, s) <==>
            if kept && k == x.key then s == x.subject else ActiveAs(t.active, k, s))
      && (k in t.prom ==> SameButMarks(t.prom[k], u.prom[k])) && (k in t.logs ==> SameButMarks(t.logs[k], u.logs[k]))
  {
    hide RestoreOne, Kept, Firing, Absent, ActiveAs, SameButMarks, Trim;
    RestoreOneFlags(c, t, x, known, k);
    forall s: Subject {
      RestoreOneActive(c, t, x, known, k, s);
    }
  }

  lemma RestoreStepAt(c: Config, base: Table, t: Table, items: Active, less: Active, x: Saved, known: set<Key>, k: Key)
    requires t.prom.Keys == base.prom.Keys && t.logs.Keys == base.logs.Keys
    requires RestoredAt(c, base, t, less, known, k) && ActiveAs(items, x.key, x.subject)
    requires forall y, s: Subject :: ActiveAs(less, y, s) <==> ActiveAs(items, y, s) && y != x.key
    requires x.subject == MetricAbsent ==> x.key == AbsentKey(Trim(x.key))
    ensures RestoredAt(c, base, RestoreOne(c, t, x, known), items, known, k)
  {
    hide AbsentKey, RestoreOne, Firing, Absent, Trim;
    TrimAbsentKey(k);
    RestoreOneAt(c, t, x, known, k);
  }

  lemma RestoreStep(c: Config, base: Table, t: Table, items: Active, x: Saved, known: set<Key>)
    requires Restored(c, base, t, items - {x.key}, known) && ActiveAs(items, x.key, x.subject)
    requires x.subject == MetricAbsent ==> exists p :: x.key == AbsentKey(p)
    ensures Restored(c, base, RestoreOne(c, t, x, known), items, known)
  {
    if x.subject == MetricAbsent {
      var p :| x.key == AbsentKey(p);
      TrimAbsentKey(p);
    }
    hide RestoredAt, AbsentKey, Trim;
    forall k ensures RestoredAt(c, base, RestoreOne(c, t, x, known), items, known, k) {
      assert RestoredAt(c, base, t, items - {x.key}, known, k);
      RestoreStepAt(c, base, t, items, items - {x.key}, x, known, k);
    }
  }

  lemma {:induction false} RestoreIs(c: Config, base: Table, saved: seq<Saved>, items: Active, known: set<Key>)
    requires Blank(base) && Lists(saved, items) && Prefixed(items)
    ensures Restored(c, base, RestoreAll(c, base, saved, known), items, known)
  {
    if saved != [] {
      hide RestoreOne;
      var x := saved[|saved|-1];
      assert Prefixed(items - {x.key}) by {
        forall k | ActiveAs(items - {x.key}, k, MetricAbsent) ensures exists p :: k == AbsentKey(p) {
          assert ActiveAs(items, k, MetricAbsent);
        }
      }
      RestoreIs(c, base, saved[..|saved|-1], items - {x.key}, known);
      assert x.subject == MetricAbsent ==> ActiveAs(items, x.key, MetricAbsent);
      RestoreStep(c, base, RestoreAll(c, base, saved[..|saved|-1], known), items, x, known);
    }
  }

  /** Restoring findings into those of the series that were restored gives an agreeing state, whatever the
      flags were before: exactly the findings whose series are there are active, and their series are marked. */
  lemma RestoreKeepsGood(c: Config, prom: set<Key>, logs: set<Key>, items: Active, base: Table, saved: seq<Saved>, known: set<Key>)
    requires Apart(prom, logs, items) && Prefixed(items) && Lists(saved, items)
    requires Blank(base) && base.prom.Keys <= prom && base.logs.Keys <= logs
    ensures var t := RestoreAll(c, base, saved, known);
      && Good(t.prom, t.logs, t.active) && t.prom.Keys == base.prom.Keys && t.logs.Keys == base.logs.Keys
      && (forall k :: k in t.prom ==> (Firing(t.prom, k) <==> ActiveAs(items, k, Metric)) && SameButMarks(base.prom[k], t.prom[k]))
      && (forall k :: k in t.logs ==> (Firing(t.logs, k) <==> ActiveAs(items, k, LogSeries)) && SameButMarks(base.logs[k], t.logs[k]))
      && (forall k :: k in t.prom ==> (Absent(t.prom, k) <==> c.absentBuckets > 0 && ActiveAs(items, AbsentKey(k), MetricAbsent)))
      && (forall k :: ActiveAs(t.active, k, Other) <==> k in known && ActiveAs(items, k, Other))
  {
    hide RestoreAll, Lists;
    var t := RestoreAll(c, base, saved, known);
    RestoreIs(c, base, saved, items, known);
    forall k
      ensures SeriesMatch(t.prom, t.logs, t.active, k) && AbsenceMatches(t.prom, t.active, k)
      ensures ActiveAs(t.active, k, MetricAbsent) ==> ActiveAs(items, k, MetricAbsent)
      ensures ActiveAs(t.active, k, Other) <==> k in known && ActiveAs(items, k, Other)
      ensures k in t.prom ==> (Firing(t.prom, k) <==> ActiveAs(items, k, Metric)) && SameButMarks(base.prom[k], t.prom[k])
      ensures k in t.prom ==> (Absent(t.prom, k) <==> c.absentBuckets > 0 && ActiveAs(items, AbsentKey(k), MetricAbsent))
      ensures k in t.logs ==> (Firing(t.logs, k) <==> ActiveAs(items, k, LogSeries)) && SameButMarks(base.logs[k], t.logs[k]) {
      assert RestoredAt(c, base, t, items, known, k) && RestoredAt(c, base, t, items, known, AbsentKey(k));
      TrimAbsentKey(k);
    }
  }

  /** Is entry i of the list the absence finding of this series? */
  predicate AbsenceSaved(saved: seq<Saved>, i: nat, k: Key) {
    i < |saved| && saved[i].subject == MetricAbsent && Trim(saved[i].key) == k
  }

  /** One of the list has been firing since then. */
  ghost predicate SavedSince(saved: seq<Saved>, k: Key, since: int) {
    exists i: nat {:trigger AbsenceSaved(saved, i, k)} :: AbsenceSaved(saved, i, k) && saved[i].since == since
  }

  /** A series that is marked as gone is so since the bucket that its saved finding gives. */
  lemma {:induction false} RestoreSince(c: Config, base: Table, saved: seq<Saved>, known: set<Key>, k: Key)
    requires Blank(base)
    ensures var t := RestoreAll(c, base, saved, known);
      k in t.prom ==> t.prom[k].gone.presence == Here || SavedSince(saved, k, t.prom[k].gone.since)
  {
    if saved != [] {
      hide Trim;
      var before, last := saved[..|saved|-1], |saved| - 1;
      RestoreSince(c, base, before, known, k);
      var t, u := RestoreAll(c, base, before, known), RestoreAll(c, base, saved, known);
      if k in u.prom && u.prom[k].gone.presence != Here {
        if !(AbsenceSaved(saved, last, k) && u.prom[k].gone.since == saved[last].since) {
          assert k in t.prom && t.prom[k].gone == u.prom[k].gone;
          assert SavedSince(before, k, t.prom[k].gone.since);
          var i: nat {:trigger AbsenceSaved(before, i, k)} :| AbsenceSaved(before, i, k) && before[i].since == t.prom[k].gone.since;
          assert AbsenceSaved(saved, i, k) && saved[i].since == before[i].since;
        }
      }
    }
  }

  /** Rebuilds stores and findings from a snapshot. The newest data of a metric series is its newest closed
      bucket with a value, that of a log series its head. */
  method Rebuild(c: Config, prom0: Store, logs0: Store, saved: seq<Saved>, keptM: set<Key>, keptL: set<Key>,
                 newest: Key -> int, head: Key -> int, known: set<Key>, ghost items: Active) returns (t: Table)
    requires Apart(prom0.Keys, logs0.Keys, items) && Prefixed(items) && Lists(saved, items)
    requires keptM <= prom0.Keys && keptL <= logs0.Keys
    ensures Good(t.prom, t.logs, t.active) && t.prom.Keys == keptM && t.logs.Keys == keptL
    ensures forall k :: k in keptM ==> (Firing(t.prom, k) <==> ActiveAs(items, k, Metric))
    ensures forall k :: k in keptM ==> (Absent(t.prom, k) <==> c.absentBuckets > 0 && ActiveAs(items, AbsentKey(k), MetricAbsent))
    ensures forall k :: k in keptL ==> (Firing(t.logs, k) <==> ActiveAs(items, k, LogSeries))
    ensures forall k :: k in keptM ==> SameButMarks(Reloaded(prom0[k], newest(k)), t.prom[k])
    ensures forall k :: k in keptL ==> SameButMarks(Reloaded(logs0[k], head(k)), t.logs[k])
    ensures forall k :: ActiveAs(t.active, k, Other) <==> k in known && ActiveAs(items, k, Other)
    ensures forall k :: k in keptM && Absent(t.prom, k) ==> SavedSince(saved, k, t.prom[k].gone.since)
  {
    hide RestoreOne, Lists, Firing, Absent, SameButMarks, Good, Apart, Prefixed;
    t := Table(map k | k in keptM :: Reloaded(prom0[k], newest(k)), map k | k in keptL :: Reloaded(logs0[k], head(k)), map[]);
    ghost var base := t;
    for i := 0 to |saved|
      invariant t == RestoreAll(c, base, saved[..i], known)
    {
      assert saved[..i+1][..i] == saved[..i];
      t := RestoreOne(c, t, saved[i], known);
    }
    assert saved[..|saved|] == saved;
    assert base.prom.Keys == keptM && base.logs.Keys == keptL;
    RestoreKeepsGood(c, prom0.Keys, logs0.Keys, items, base, saved, known);
    forall k | k in keptM && Absent(t.prom, k)
      ensures SavedSince(saved, k, t.prom[k].gone.since) {
      RestoreSince(c, base, saved, known, k);
      AbsentIs(t.prom, k);
    }
  }

  lemma AbsentIs(s: Store, k: Key)
    requires Absent(s, k)
    ensures k in s && s[k].gone.presence == Gone
  {
  }

  // --- the server ---------------------------------------------------------------------------------------

  /** The series fits its trail. */
  predicate Followed(s: Store, trails: map<Key, Trail>, k: Key, capacity: nat)
    requires k in s
  {
    k in trails && OnTrail(s[k], trails[k], capacity)
  }

  ghost predicate AllFollowed(s: Store, trails: map<Key, Trail>, capacity: nat) {
    forall k {:trigger Followed(s, trails, k, capacity)} :: k in s ==> Followed(s, trails, k, capacity)
  }

  function TrailsAfter(s: Store, trails: map<Key, Trail>, f: Findout, last: int): map<Key, Trail> {
    map k | k in trails :: if k in s then TrailAfter(s[k], trails[k], EvaluatedTo(f, k, last)) else trails[k]
  }

  function EvaluatedTo(f: Findout, k: Key, last: int): Happening {
    Evaluated(f.metric(k), last)
  }

  lemma FollowedAfter(c: Config, s: Store, trails: map<Key, Trail>, f: Findout, open: int, ran: bool, k: Key)
    requires k in s && Followed(s, trails, k, c.capacity) && Possible(c, s[k], k, f, open, ran)
    ensures Followed(AllMetrics(c, s, f, open - 1), TrailsAfter(s, trails, f, open - 1), k, c.capacity)
    ensures (s[k].band.firing ==> 2 * trails[k].restarts + 3 <= c.capacity) ==> !Loses(c, s[k], k, f, open)
  {
    hide Run, RunTrack, OnTrail, Truthful, LosesFiring, LastScored;
    FollowsOn(s[k], trails[k], f, k, open, c.forBuckets, c.capacity, ran);
    SameTrail(Evaluate1(s[k], f.metric(k), open - 1, c.forBuckets), EvaluatedMetric(c, s[k], k, f, open - 1),
              TrailAfter(s[k], trails[k], EvaluatedTo(f, k, open - 1)), c.capacity);
    if s[k].band.firing ==> 2 * trails[k].restarts + 3 <= c.capacity {
      OnTrailIsKept(s[k], trails[k], open, c.capacity);
    }
  }

  lemma DeliveryFollowed(s: Store, trails: map<Key, Trail>, k: Key, j: Info, t: Trail, capacity: nat)
    requires if k in s then k in trails ==> t == trails[k] else !j.band.firing
    requires k in s ==> j == s[k].(lastData := j.lastData) && j.lastData >= s[k].lastData
    ensures AllFollowed(s, trails, capacity) ==> AllFollowed(s[k := j], trails[k := t], capacity)
  {
    if AllFollowed(s, trails, capacity) {
      var s', trails' := s[k := j], trails[k := t];
      forall x | x in s' ensures Followed(s', trails', x, capacity) {
        assert x in s ==> Followed(s, trails, x, capacity);
      }
    }
  }

  lemma SameTrail(i: Info, j: Info, t: Trail, capacity: nat)
    requires OnTrail(i, t, capacity) && j == i.(gone := j.gone)
    ensures OnTrail(j, t, capacity)
  {
  }

  lemma FollowsOn(i: Info, t: Trail, f: Findout, k: Key, open: int, need: int, capacity: nat, ran: bool)
    requires OnTrail(i, t, capacity) && if ran then Truthful(i, f.metric(k), open - 1, capacity) else f.metric(k) == []
    ensures OnTrail(Evaluate1(i, f.metric(k), open - 1, need), TrailAfter(i, t, EvaluatedTo(f, k, open - 1)), capacity)
  {
    if ran {
      StaysOnTrail(i, t, EvaluatedTo(f, k, open - 1), need, capacity);
    }
  }

  /** Keys that belong to no series and no absence finding. */
  predicate Free(prom: set<Key>, logs: set<Key>, k: Key) {
    k !in prom && k !in logs && !IsAbsent(prom, k)
  }

  ghost predicate Homed(prom: set<Key>, logs: set<Key>, active: Active) {
    forall k {:trigger HomeAt(prom, logs, active, k)} :: HomeAt(prom, logs, active, k)
  }

  ghost predicate SameButOthers(a: Active, b: Active) {
    forall k, s: Subject {:trigger ActiveAs(a, k, s)} {:trigger ActiveAs(b, k, s)} ::
      s != Other ==> (ActiveAs(a, k, s) <==> ActiveAs(b, k, s))
  }

  lemma OthersDoNotMatter(prom: Store, logs: Store, a: Active, b: Active)
    requires SameButOthers(a, b)
    ensures Matches(prom, logs, a) <==> Matches(prom, logs, b)
  {
    forall k ensures SeriesMatch(prom, logs, a, k) <==> SeriesMatch(prom, logs, b, k) {
    }
    forall k ensures AbsenceMatches(prom, a, k) <==> AbsenceMatches(prom, b, k) {
    }
  }

  lemma SameFlags(prom: Store, prom': Store, logs: Store, logs': Store, active: Active)
    requires forall k :: (Firing(prom, k) <==> Firing(prom', k)) && (Firing(logs, k) <==> Firing(logs', k))
    requires forall k :: Absent(prom, k) <==> Absent(prom', k)
    ensures Matches(prom, logs, active) <==> Matches(prom', logs', active)
  {
    forall k ensures SeriesMatch(prom, logs, active, k) <==> SeriesMatch(prom', logs', active, k) {
    }
    forall k ensures AbsenceMatches(prom, active, k) <==> AbsenceMatches(prom', active, k) {
    }
  }

  lemma ApartWithin(prom: set<Key>, logs: set<Key>, active: Active, lessM: set<Key>, lessL: set<Key>)
    requires Separate(prom, logs) && Homed(prom, logs, active) && lessM <= prom && lessL <= logs
    ensures Apart(lessM, lessL, active)
  {
    forall k | ActiveAs(active, k, Other) ensures Free(lessM, lessL, k) {
      assert HomeAt(prom, logs, active, k);
    }
  }

  ghost predicate NoneLost(c: Config, prom: Store, f: Findout, open: int) {
    forall k :: k in prom ==> !Loses(c, prom[k], k, f, open)
  }

  /** Every firing metric series was scored recently enough, counted in restarts. */
  predicate FewRestarts(prom: Store, trails: map<Key, Trail>, capacity: nat) {
    forall k :: k in prom && k in trails && prom[k].band.firing ==> 2 * trails[k].restarts + 3 <= capacity
  }

  lemma AllFollowedAfter(c: Config, prom: Store, trails: map<Key, Trail>, f: Findout, open: int, ran: bool)
    requires AllFollowed(prom, trails, c.capacity) && AllPossible(c, prom, f, open, ran)
    ensures AllFollowed(KeptMetrics(AllMetrics(c, prom, f, open - 1), open, c.capacity), TrailsAfter(prom, trails, f, open - 1),
                        c.capacity)
    ensures FewRestarts(prom, trails, c.capacity) ==> NoneLost(c, prom, f, open)
  {
    hide TrailsAfter, EvaluatedMetric, Possible, OnTrail, Loses, DropsMetric;
    var p, t := AllMetrics(c, prom, f, open - 1), TrailsAfter(prom, trails, f, open - 1);
    forall k | k in prom
      ensures Followed(p, t, k, c.capacity)
      ensures FewRestarts(prom, trails, c.capacity) ==> !Loses(c, prom[k], k, f, open) {
      assert Followed(prom, trails, k, c.capacity);
      FollowedAfter(c, prom, trails, f, open, ran, k);
    }
    forall k | k in KeptMetrics(p, open, c.capacity) ensures Followed(KeptMetrics(p, open, c.capacity), t, k, c.capacity) {
      assert Followed(p, t, k, c.capacity);
    }
  }

  lemma AllSaneAfter(c: Config, prom: Store, f: Findout, open: int, ran: bool)
    requires AllSane(prom, c.capacity) && AllPossible(c, prom, f, open, ran)
    ensures AllSane(KeptMetrics(AllMetrics(c, prom, f, open - 1), open, c.capacity), c.capacity)
  {
    hide EvaluatedMetric, Possible, Sane, Loses, DropsMetric;
    forall k | k in prom ensures Sane(EvaluatedMetric(c, prom[k], k, f, open - 1), c.capacity) {
      LosesMeans(c, prom[k], k, f, open, ran);
    }
  }

  lemma NothingElseWrong(c: Config, prom: Store, logs: Store, f: Findout, open: int)
    requires prom.Keys !! logs.Keys
    ensures NothingGoesWrong(c, prom, logs, f, open) <==> NoneLost(c, prom, f, open)
  {
    hide GoesWrong, Loses;
    forall k ensures GoesWrong(c, prom, logs, f, open, k) <==> k in prom && Loses(c, prom[k], k, f, open) {
      OnlyLosses(c, prom, logs, f, open, k);
    }
  }

  /** Keys and findings stay apart through the events, whatever goes wrong. */
  lemma ApartAfter(c: Config, prom: Store, logs: Store, active: Active, f: Findout, em: seq<Event>, el: seq<Event>, lastM: int,
                   lastL: int)
    requires Good(prom, logs, active) && MetricEvents(c, prom, f, em) && LogEvents(c, logs, f, el)
    ensures Separate(prom.Keys, logs.Keys) && Homed(prom.Keys, logs.Keys, ApplyAll(active, em + el))
    ensures AllMetrics(c, prom, f, lastM).Keys == prom.Keys && AllLogs(c, logs, f, lastL).Keys == logs.Keys
  {
    hide HomeAt, ApplyAll, MetricEvents, LogEvents;
    forall k ensures HomeAt(prom.Keys, logs.Keys, ApplyAll(active, em + el), k) {
      HomeAfter(c, prom, logs, active, f, em, el, k);
    }
  }

  lemma KeptKeys(prom: Store, logs: Store, openM: int, openL: int, capacity: nat, season: int)
    ensures KeptMetrics(prom, openM, capacity).Keys <= prom.Keys && KeptLogs(logs, openL, season).Keys <= logs.Keys
  {
  }

  class Server {
    const c: Config
    var prom: Store
    var logs: Store
    var active: Active
    /** Where the firing metric series were last scored. */
    ghost var trails: map<Key, Trail>

    ghost predicate Valid()
      reads this
    {
      Good(prom, logs, active) && AllSane(prom, c.capacity)
    }

    /** Firing metric series fit the record of where they were last scored. */
    ghost predicate OnRecord()
      reads this
    {
      AllFollowed(prom, trails, c.capacity)
    }

    constructor (c: Config)
      ensures Valid() && OnRecord() && this.c == c && prom == map[] && logs == map[] && active == map[]
    {
      this.c := c;
      prom, logs, active, trails := map[], map[], map[], map[];
    }

    /** A restart from a snapshot. The stores of the snapshot are prom0 and logs0, of which the series keptM
        and keptL are restored; newest is the newest closed bucket with a value, head the open one. Flags are rebuilt from the
        saved findings alone, so the state agrees even if the saved one did not. The record of where firing
        series were scored stays right if newest is not before that. */
    constructor Restart(c: Config, prom0: Store, logs0: Store, saved: seq<Saved>, keptM: set<Key>, keptL: set<Key>,
                        newest: Key -> int, head: Key -> int, known: set<Key>, ghost items: Active,
                        ghost trails0: map<Key, Trail>)
      requires Apart(prom0.Keys, logs0.Keys, items) && Prefixed(items) && Lists(saved, items)
      requires keptM <= prom0.Keys && keptL <= logs0.Keys && keptM <= trails0.Keys
      requires forall k :: k in keptM ==> newest(k) + c.capacity >= 0
      ensures Valid() && this.c == c && prom.Keys == keptM && logs.Keys == keptL
      ensures forall k :: k in keptM ==> (Firing(prom, k) <==> ActiveAs(items, k, Metric))
      ensures forall k :: k in keptM ==> (Absent(prom, k) <==> c.absentBuckets > 0 && ActiveAs(items, AbsentKey(k), MetricAbsent))
      ensures forall k :: k in keptL ==> (Firing(logs, k) <==> ActiveAs(items, k, LogSeries))
      ensures forall k :: k in keptM ==> prom[k].lastEval == prom0[k].lastEval && prom[k].lastData == newest(k)
      ensures forall k :: k in keptL ==> logs[k].lastEval == logs0[k].lastEval && logs[k].lastData == head(k)
      ensures forall k :: k in keptM ==> prom[k].band == Band(Firing(prom, k), 0, 0, 0)
      ensures forall k :: k in keptL ==> logs[k].band == Band(Firing(logs, k), 0, 0, 0)
      ensures forall k :: k in keptM && Absent(prom, k) ==> SavedSince(saved, k, prom[k].gone.since)
      ensures forall k :: ActiveAs(active, k, Other) <==> k in known && ActiveAs(items, k, Other)
      ensures trails == map k | k in keptM :: trails0[k].(restarts := trails0[k].restarts + 1)
      ensures (forall k :: k in keptM && ActiveAs(items, k, Metric) ==>
                 Firing(prom0, k) && OnTrail(prom0[k], trails0[k], c.capacity) && newest(k) >= trails0[k].anchor)
              ==> OnRecord()
    {
      var t := Rebuild(c, prom0, logs0, saved, keptM, keptL, newest, head, known, items);
      this.c, prom, logs, active := c, t.prom, t.logs, t.active;
      trails := map k | k in keptM :: trails0[k].(restarts := trails0[k].restarts + 1);
      forall k | k in t.prom
        ensures Sane(t.prom[k], c.capacity)
        ensures (ActiveAs(items, k, Metric) ==>
                   Firing(prom0, k) && OnTrail(prom0[k], trails0[k], c.capacity) && newest(k) >= trails0[k].anchor)
                ==> OnTrail(t.prom[k], trails0[k].(restarts := trails0[k].restarts + 1), c.capacity) {
        assert SameButMarks(Reloaded(prom0[k], newest(k)), t.prom[k]);
        assert Firing(t.prom, k) <==> ActiveAs(items, k, Metric);
      }
    }

    method Apply(events: seq<Event>)
      modifies `active
      ensures active == ApplyAll(old(active), events)
    {
      for i := 0 to |events|
        invariant active == ApplyAll(old(active), events[..i])
      {
        assert events[..i+1][..i] == events[..i];
        var e := events[i];
        match e.kind {
          case Fire => active := active[e.key := e.subject];
          case Update =>
          case Resolve =>
            if e.key in active {
              active := active - {e.key};
            }
        }
      }
      assert events[..|events|] == events;
    }

    /** Findings about novel templates and signatures come and go under keys of their own. */
    method EvalNovelty(novel: set<Key>, settled: set<Key>)
      requires forall k :: k in novel ==> Free(prom.Keys, logs.Keys, k)
      requires Homed(prom.Keys, logs.Keys, active)
      modifies `active
      ensures Homed(prom.Keys, logs.Keys, active) && SameButOthers(old(active), active)
      ensures forall k :: ActiveAs(active, k, Other) <==> (k in novel || ActiveAs(old(active), k, Other)) && k !in settled
    {
      var was := active;
      forall k | k in novel && k in was ensures was[k] == Other {
        assert HomeAt(prom.Keys, logs.Keys, was, k);
      }
      active := map k | k in was.Keys + novel && !(k in settled && (k in novel || was[k] == Other)) ::
        if k in novel then Other else was[k];
      forall k ensures HomeAt(prom.Keys, logs.Keys, active, k) {
        assert HomeAt(prom.Keys, logs.Keys, was, k);
      }
    }

    /** A sample for bucket b of a metric series, new or known. */
    method DeliverMetric(k: Key, b: int)
      requires Valid()
      requires Apart(prom.Keys + {k}, logs.Keys, active)
      modifies `prom, `trails
      ensures Valid() && (old(OnRecord()) ==> OnRecord()) && prom.Keys == old(prom.Keys) + {k}
      ensures prom[k] == After(if k in old(prom) then old(prom)[k] else New(), Delivered(b), c.forBuckets)
      ensures forall x {:trigger prom[x]} :: x in old(prom) && x != k ==> prom[x] == old(prom[x])
    {
      hide AllFollowed, Matches, OthersApart;
      ghost var was, t := prom, if k in prom && k in trails then trails[k] else Trail(NO_EVAL, 0);
      var i := if k in prom then prom[k] else New();
      var j := i.(lastData := Max(i.lastData, b));
      SameFlags(was, was[k := j], logs, logs, active);
      assert was[k := j].Keys == was.Keys + {k};
      DeliveryFollowed(was, trails, k, j, t, c.capacity);
      prom, trails := prom[k := j], trails[k := t];
    }

    /** A log line of bucket b, of a new or known series. */
    method DeliverLog(k: Key, b: int)
      requires Valid()
      requires Apart(prom.Keys, logs.Keys + {k}, active)
      modifies `logs
      ensures Valid() && logs.Keys == old(logs.Keys) + {k}
      ensures logs[k] == After(if k in old(logs) then old(logs)[k] else New(), Delivered(b), c.forBuckets)
      ensures forall x {:trigger logs[x]} :: x in old(logs) && x != k ==> logs[x] == old(logs[x])
    {
      var i := if k in logs then logs[k] else New();
      var j := if b > i.lastData then i.(lastData := b) else i;
      SameFlags(prom, prom, logs, logs[k := j], active);
      logs := logs[k := j];
    }

    /** Evaluates all series up to the buckets before openM and openL. The workers' outcomes and events
        are given; ran says whether the metric clock has started. The state is as it must be afterwards
        exactly if nothing goes wrong with any key: without shared keys, if no metric series is lost; and
        none is while the restarts since each firing one was scored leave three buckets of the ring. */
    method Evaluate(f: Findout, em: seq<Event>, el: seq<Event>, openM: int, openL: int, ran: bool, novel: set<Key>,
                    settled: set<Key>)
      requires Valid() && MetricEvents(c, prom, f, em) && LogEvents(c, logs, f, el)
      requires AllPossible(c, prom, f, openM, ran) && forall k :: k in novel ==> Free(prom.Keys, logs.Keys, k)
      modifies `prom, `logs, `active, `trails
      ensures prom == KeptMetrics(AllMetrics(c, old(prom), f, openM - 1), openM, c.capacity)
      ensures logs == KeptLogs(AllLogs(c, old(logs), f, openL - 1), openL, c.logSeason)
      ensures SameButOthers(ApplyAll(old(active), em + el), active)
      ensures trails == TrailsAfter(old(prom), old(trails), f, openM - 1) && (old(OnRecord()) ==> OnRecord())
      ensures Valid() <==> NothingGoesWrong(c, old(prom), old(logs), f, openM)
      ensures old(prom.Keys !! logs.Keys) ==> (Valid() <==> NoneLost(c, old(prom), f, openM))
      ensures old(prom.Keys !! logs.Keys && OnRecord() && FewRestarts(prom, trails, c.capacity)) ==> Valid()
    {
      hide *;
      ghost var p0, l0, a0, t0 := prom, logs, active, trails;
      ValidIs();
      ApartAfter(c, p0, l0, a0, f, em, el, openM - 1, openL - 1);
      ApartBefore(p0, l0, a0);
      Apply(em + el);
      prom, logs := AllMetrics(c, prom, f, openM - 1), AllLogs(c, logs, f, openL - 1);
      trails := TrailsAfter(p0, t0, f, openM - 1);
      EvalNovelty(novel, settled);
      ghost var p1, l1 := prom, logs;
      prom, logs := KeptMetrics(prom, openM, c.capacity), KeptLogs(logs, openL, c.logSeason);
      KeptKeys(p1, l1, openM, openL, c.capacity, c.logSeason);
      ApartWithin(p1.Keys, l1.Keys, active, prom.Keys, logs.Keys);
      OthersDoNotMatter(prom, logs, ApplyAll(a0, em + el), active);
      AllSaneAfter(c, p0, f, openM, ran);
      if AllFollowed(p0, t0, c.capacity) {
        AllFollowedAfter(c, p0, t0, f, openM, ran);
      }
      EvaluationExactly(c, p0, l0, a0, f, em, el, openM, openL, ran);
      if p0.Keys !! l0.Keys {
        NothingElseWrong(c, p0, l0, f, openM);
      }
      ValidIs();
    }

    lemma ValidIs()
      ensures Valid() <==> Good(prom, logs, active) && AllSane(prom, c.capacity)
      ensures OnRecord() <==> AllFollowed(prom, trails, c.capacity)
      ensures Good(prom, logs, active) <==> Apart(prom.Keys, logs.Keys, active) && Matches(prom, logs, active)
    {
    }
  }

  lemma ApartBefore(prom: Store, logs: Store, active: Active)
    requires Good(prom, logs, active)
    ensures Separate(prom.Keys, logs.Keys)
  {
  }
}
