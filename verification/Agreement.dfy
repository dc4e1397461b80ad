/** Findings and the series they belong to: when the table of active findings agrees with the flags of the
    stored series, and what one evaluation with its garbage collection makes of that. */
module Agreement {
  import opened Numbers
  import opened Options
  import opened Findings
  import opened Absence
  import opened Recency

  type Key = string

  const ABSENT_PREFIX: Key := "absent\U{00ff}"

  /** What a finding is about; Other stands for novel templates and signatures, which have no series. */
  datatype Subject = Metric | MetricAbsent | LogSeries | Other

  datatype Event = Event(key: Key, kind: Kind, subject: Subject)

  type Store = map<Key, Info>
  type Active = map<Key, Subject>

  function AbsentKey(k: Key): Key {
    ABSENT_PREFIX + k
  }

  lemma AbsentKeyInjective(a: Key, b: Key)
    ensures AbsentKey(a) == AbsentKey(b) ==> a == b
  {
    assert AbsentKey(a)[|ABSENT_PREFIX|..] == a && AbsentKey(b)[|ABSENT_PREFIX|..] == b;
  }

  // --- agreement ------------------------------------------------------------------------------------

  predicate Firing(s: Store, k: Key) {
    k in s && s[k].band.firing
  }

  predicate Absent(s: Store, k: Key) {
    k in s && s[k].gone.presence == Gone
  }

  predicate ActiveAs(a: Active, k: Key, subject: Subject) {
    k in a && a[k] == subject
  }

  /** Is this the key of an absence finding of one of the series? */
  predicate IsAbsent(prom: set<Key>, k: Key) {
    exists p {:trigger AbsentKey(p)} :: p in prom && k == AbsentKey(p)
  }

  /** No series has the key of an absence finding. A metric and a log series may share a key. */
  predicate Separate(prom: set<Key>, logs: set<Key>) {
    forall k {:trigger AbsentKey(k)} :: k in prom ==> AbsentKey(k) !in prom && AbsentKey(k) !in logs
  }

  /** Findings without a series have keys of their own. */
  ghost predicate OthersApart(prom: set<Key>, logs: set<Key>, active: Active) {
    forall k {:trigger ActiveAs(active, k, Other)} :: ActiveAs(active, k, Other) ==>
      k !in prom && k !in logs && !IsAbsent(prom, k)
  }

  ghost predicate Apart(prom: set<Key>, logs: set<Key>, active: Active) {
    Separate(prom, logs) && OthersApart(prom, logs, active)
  }

  /** A key is active as a metric or log finding exactly when that series is stored and firing. */
  predicate SeriesMatch(prom: Store, logs: Store, active: Active, k: Key) {
    && (ActiveAs(active, k, Metric) <==> Firing(prom, k))
    && (ActiveAs(active, k, LogSeries) <==> Firing(logs, k))
  }

  predicate AbsenceMatches(prom: Store, active: Active, k: Key) {
    ActiveAs(active, AbsentKey(k), MetricAbsent) <==> Absent(prom, k)
  }

  /** Absence findings have prefixed keys. */
  ghost predicate Prefixed(active: Active) {
    forall k {:trigger ActiveAs(active, k, MetricAbsent)} :: ActiveAs(active, k, MetricAbsent) ==> exists p :: k == AbsentKey(p)
  }

  /** The table agrees with the flags of the series. */
  ghost predicate Matches(prom: Store, logs: Store, active: Active) {
    && (forall k {:trigger SeriesMatch(prom, logs, active, k)} :: SeriesMatch(prom, logs, active, k))
    && (forall k {:trigger AbsenceMatches(prom, active, k)} :: AbsenceMatches(prom, active, k))
    && Prefixed(active)
  }

  /** What the state must be like between evaluations. */
  ghost predicate Good(prom: Store, logs: Store, active: Active) {
    Apart(prom.Keys, logs.Keys, active) && Matches(prom, logs, active)
  }

  /** The subject of an active key tells where its series is. */
  predicate HomeAt(prom: set<Key>, logs: set<Key>, active: Active, k: Key) {
    k in active ==>
      match active[k]
      case Metric => k in prom
      case LogSeries => k in logs
      case MetricAbsent => IsAbsent(prom, k)
      case Other => k !in prom && k !in logs && !IsAbsent(prom, k)
  }

  lemma GoodHome(prom: Store, logs: Store, active: Active, k: Key)
    requires Good(prom, logs, active)
    ensures HomeAt(prom.Keys, logs.Keys, active, k)
  {
    if k in active {
      assert SeriesMatch(prom, logs, active, k);
      match active[k]
      case Metric =>
      case LogSeries =>
      case MetricAbsent =>
        assert ActiveAs(active, k, MetricAbsent);
        var p :| k == AbsentKey(p);
        assert AbsenceMatches(prom, active, p);
      case Other =>
        assert ActiveAs(active, k, Other);
    }
  }

  // --- applying events ------------------------------------------------------------------------------

  function ApplyOne(a: Active, e: Event): Active {
    match e.kind
    case Fire => a[e.key := e.subject]
    case Update => a
    case Resolve => a - {e.key}
  }

  function ApplyAll(a: Active, events: seq<Event>): Active {
    if events == [] then a else ApplyOne(ApplyAll(a, events[..|events|-1]), events[|events|-1])
  }

  lemma {:induction false} ApplyConcat(a: Active, e: seq<Event>, f: seq<Event>)
    ensures ApplyAll(a, e + f) == ApplyAll(ApplyAll(a, e), f)
  {
    if f == [] {
      assert e + f == e;
    } else {
      assert (e + f)[..|e + f|-1] == e + f[..|f|-1];
      ApplyConcat(a, e, f[..|f|-1]);
    }
  }

  /** The kinds of the events under one key, in order. */
  function KindsOf(events: seq<Event>, key: Key): seq<Kind> {
    if events == [] then []
    else
      var e := events[|events|-1];
      KindsOf(events[..|events|-1], key) + if e.key == key then [e.kind] else []
  }

  predicate AllAbout(events: seq<Event>, key: Key, subject: Subject) {
    forall i {:trigger events[i]} :: 0 <= i < |events| && events[i].key == key ==> events[i].subject == subject
  }

  /** Do these events open or close a finding? */
  predicate Changes(kinds: seq<Kind>) {
    kinds != [] && (kinds[|kinds|-1] != Update || Changes(kinds[..|kinds|-1]))
  }

  /** What the table says of a key. */
  function Entry(a: Active, k: Key): Option<Subject> {
    if k in a then Some(a[k]) else None
  }

  /** What it says after the events of one series with that key, which was firing before or not, and is
      or is not firing afterwards. */
  function EntryAfter(was: Option<Subject>, kinds: seq<Kind>, firing: bool, subject: Subject): Option<Subject> {
    if !Changes(kinds) then was else if firing then Some(subject) else None
  }

  lemma OneMoreKind(kinds: seq<Kind>, e: Kind)
    ensures Changes(kinds + [e]) <==> e != Update || Changes(kinds)
  {
    assert (kinds + [e])[..|kinds|] == kinds;
  }

  lemma EntryOne(a: Active, e: Event, key: Key)
    ensures Entry(ApplyOne(a, e), key)
         == if e.key != key || e.kind == Update then Entry(a, key) else if e.kind == Fire then Some(e.subject) else None
  {
  }

  /** In whatever order events of different keys come, those of one key that fit the grammar leave its
      entry alone or determine it. */
  lemma {:induction false} ApplyAt(a: Active, events: seq<Event>, key: Key, subject: Subject, open: bool)
    requires AllAbout(events, key, subject)
    requires OpenAfter(open, KindsOf(events, key)).Some?
    ensures var kinds := KindsOf(events, key);
      var after := OpenAfter(open, kinds).value;
      && Entry(ApplyAll(a, events), key) == EntryAfter(Entry(a, key), kinds, after, subject)
      && (Changes(kinds) || after == open)
  {
    hide Entry, ApplyOne, OpenAfter, Changes;
    if events == [] {
      NothingApplied(open);
    } else {
      var before, e := events[..|events|-1], events[|events|-1];
      OneMore(open, KindsOf(before, key), if e.key == key then Some(e.kind) else None);
      assert KindsOf(events, key) == KindsOf(before, key) + if e.key == key then [e.kind] else [];
      assert KindsOf(before, key) + [] == KindsOf(before, key);
      ApplyAt(a, before, key, subject, open);
      OneMoreKind(KindsOf(before, key), e.kind);
      EntryOne(ApplyAll(a, before), e, key);
    }
  }

  lemma NothingApplied(open: bool)
    ensures !Changes([]) && OpenAfter(open, []) == Some(open)
  {
  }

  lemma {:induction false} NoEvents(a: Active, events: seq<Event>, key: Key)
    requires forall e :: e in events ==> e.key != key
    ensures KindsOf(events, key) == [] && Entry(ApplyAll(a, events), key) == Entry(a, key)
  {
    if events != [] {
      assert events[|events|-1] in events;
      NoEvents(a, events[..|events|-1], key);
    }
  }

  // --- one evaluation -------------------------------------------------------------------------------

  /** What the series of one evaluation come to: outcomes for every metric and log series, and for
      metric series what absence tracking looks at (nothing if it is not tracked). */
  datatype Findout = Findout(metric: Key -> seq<Outcome>, looks: Key -> seq<Look>, logs: Key -> seq<Outcome>)

  datatype Config = Config(forBuckets: int, absentBuckets: int, absentTTL: int, capacity: nat, logSeason: int)

  function EvaluatedMetric(c: Config, i: Info, k: Key, f: Findout, last: int): Info {
    Evaluate1(i, f.metric(k), last, c.forBuckets).(gone := GoneAfter(c, i, k, f))
  }

  function EvaluatedLog(c: Config, i: Info, k: Key, f: Findout, last: int): Info {
    Evaluate1(i, f.logs(k), last, c.forBuckets)
  }

  function GoneAfter(c: Config, i: Info, k: Key, f: Findout): Absence.State {
    RunTrack(i.gone, f.looks(k), c.absentBuckets, c.absentTTL)
  }

  /** The band of one series after the evaluation, as a metric or log series. */
  function MetricBand(c: Config, i: Info, k: Key, f: Findout): Band {
    Run(i.band, f.metric(k), c.forBuckets)
  }

  function LogBand(c: Config, i: Info, k: Key, f: Findout): Band {
    Run(i.band, f.logs(k), c.forBuckets)
  }

  /** The events of one series: of its band finding as a metric or log series, and of its absence. */
  function MetricKinds(c: Config, i: Info, k: Key, f: Findout): seq<Kind> {
    Emitted(i.band, f.metric(k), c.forBuckets)
  }

  function LogKinds(c: Config, i: Info, k: Key, f: Findout): seq<Kind> {
    Emitted(i.band, f.logs(k), c.forBuckets)
  }

  function AbsentKinds(c: Config, i: Info, k: Key, f: Findout): seq<Kind> {
    AbsenceEvents(i.gone, f.looks(k), c.absentBuckets, c.absentTTL)
  }

  lemma MetricGrammar(c: Config, i: Info, k: Key, f: Findout)
    ensures OpenAfter(i.band.firing, MetricKinds(c, i, k, f)) == Some(MetricBand(c, i, k, f).firing)
    ensures OpenAfter(i.gone.presence == Gone, AbsentKinds(c, i, k, f)) == Some(GoneAfter(c, i, k, f).presence == Gone)
  {
    EventGrammar(i.band, f.metric(k), c.forBuckets);
    AbsenceGrammar(i.gone, f.looks(k), c.absentBuckets, c.absentTTL);
  }

  lemma LogGrammar(c: Config, i: Info, k: Key, f: Findout)
    ensures OpenAfter(i.band.firing, LogKinds(c, i, k, f)) == Some(LogBand(c, i, k, f).firing)
  {
    EventGrammar(i.band, f.logs(k), c.forBuckets);
  }

  function AllMetrics(c: Config, s: Store, f: Findout, last: int): Store {
    map k | k in s :: EvaluatedMetric(c, s[k], k, f, last)
  }

  function AllLogs(c: Config, s: Store, f: Findout, last: int): Store {
    map k | k in s :: EvaluatedLog(c, s[k], k, f, last)
  }

  predicate MetricEventsAt(c: Config, prom: Store, f: Findout, events: seq<Event>, k: Key)
    requires k in prom
  {
    && AllAbout(events, k, Metric) && KindsOf(events, k) == MetricKinds(c, prom[k], k, f)
    && AllAbout(events, AbsentKey(k), MetricAbsent) && KindsOf(events, AbsentKey(k)) == AbsentKinds(c, prom[k], k, f)
  }

  /** The events of the workers for the metric series: for every series those that its buckets call for,
      in any order across series, and no others. */
  ghost predicate MetricEvents(c: Config, prom: Store, f: Findout, events: seq<Event>) {
    && (forall k {:trigger MetricEventsAt(c, prom, f, events, k)} :: k in prom ==> MetricEventsAt(c, prom, f, events, k))
    && (forall e :: e in events ==> e.key in prom || IsAbsent(prom.Keys, e.key))
  }

  predicate LogEventsAt(c: Config, logs: Store, f: Findout, events: seq<Event>, k: Key)
    requires k in logs
  {
    AllAbout(events, k, LogSeries) && KindsOf(events, k) == LogKinds(c, logs[k], k, f)
  }

  /** And for the log series. */
  ghost predicate LogEvents(c: Config, logs: Store, f: Findout, events: seq<Event>) {
    && (forall k {:trigger LogEventsAt(c, logs, f, events, k)} :: k in logs ==> LogEventsAt(c, logs, f, events, k))
    && (forall e :: e in events ==> e.key in logs)
  }

  /** The entry of a metric series after the metric events; keys of other series are left alone. */
  lemma AfterMetricEvents(c: Config, prom: Store, a: Active, f: Findout, events: seq<Event>, k: Key)
    requires MetricEvents(c, prom, f, events)
    ensures var r := ApplyAll(a, events);
      if k in prom then
        var kinds, after := MetricKinds(c, prom[k], k, f), MetricBand(c, prom[k], k, f).firing;
        Entry(r, k) == EntryAfter(Entry(a, k), kinds, after, Metric) && (Changes(kinds) || after == prom[k].band.firing)
      else !IsAbsent(prom.Keys, k) ==> Entry(r, k) == Entry(a, k)
  {
    hide MetricKinds, AbsentKinds, MetricBand, GoneAfter, ApplyAll, EntryAfter, Entry;
    if k in prom {
      assert MetricEventsAt(c, prom, f, events, k);
      MetricGrammar(c, prom[k], k, f);
      ApplyAt(a, events, k, Metric, prom[k].band.firing);
    } else if !IsAbsent(prom.Keys, k) {
      NoEvents(a, events, k);
    }
  }

  lemma AfterAbsenceEvents(c: Config, prom: Store, a: Active, f: Findout, events: seq<Event>, k: Key)
    requires MetricEvents(c, prom, f, events) && k in prom
    ensures var r := ApplyAll(a, events);
      var kinds, after := AbsentKinds(c, prom[k], k, f), GoneAfter(c, prom[k], k, f).presence == Gone;
      && Entry(r, AbsentKey(k)) == EntryAfter(Entry(a, AbsentKey(k)), kinds, after, MetricAbsent)
      && (Changes(kinds) || after == (prom[k].gone.presence == Gone))
  {
    hide MetricKinds, AbsentKinds, MetricBand, GoneAfter, ApplyAll, EntryAfter, Entry;
    assert MetricEventsAt(c, prom, f, events, k);
    MetricGrammar(c, prom[k], k, f);
    ApplyAt(a, events, AbsentKey(k), MetricAbsent, prom[k].gone.presence == Gone);
  }

  lemma AfterLogEvents(c: Config, logs: Store, a: Active, f: Findout, events: seq<Event>, k: Key)
    requires LogEvents(c, logs, f, events)
    ensures var r := ApplyAll(a, events);
      if k in logs then
        var kinds, after := LogKinds(c, logs[k], k, f), LogBand(c, logs[k], k, f).firing;
        Entry(r, k) == EntryAfter(Entry(a, k), kinds, after, LogSeries) && (Changes(kinds) || after == logs[k].band.firing)
      else Entry(r, k) == Entry(a, k)
  {
    hide LogKinds, LogBand, ApplyAll, EntryAfter, Entry;
    if k in logs {
      assert LogEventsAt(c, logs, f, events, k);
      LogGrammar(c, logs[k], k, f);
      ApplyAt(a, events, k, LogSeries, logs[k].band.firing);
    } else {
      NoEvents(a, events, k);
    }
  }

  // --- where agreement can end ----------------------------------------------------------------------

  function KeptMetrics(s: Store, open: int, capacity: nat): Store {
    map k | k in s && !DropsMetric(s[k], open, capacity) :: s[k]
  }

  function KeptLogs(s: Store, open: int, season: int): Store {
    map k | k in s && !DropsLog(s[k], open, season) :: s[k]
  }

  /** Garbage collection keeps a metric series as it is exactly if its data is at most a ring old or its absence finding
      is firing, and a log series exactly if its data is at most a season old or it is firing. */
  lemma CollectedExactly(s: Store, open: int, capacity: nat, season: int, k: Key)
    ensures (k in KeptMetrics(s, open, capacity) <==> k in s && (open - s[k].lastData <= capacity || Absent(s, k)))
    ensures (k in KeptLogs(s, open, season) <==> k in s && (open - s[k].lastData <= season || Firing(s, k)))
    ensures k in KeptMetrics(s, open, capacity) ==> KeptMetrics(s, open, capacity)[k] == s[k]
    ensures k in KeptLogs(s, open, season) ==> KeptLogs(s, open, season)[k] == s[k]
  {
  }

  /** What the series invariantly are: a firing one resolves at its third bucket without a score, and the
      newest data found at a restart is at most a ring before bucket 0. */
  predicate Sane(i: Info, capacity: nat) {
    (i.band.firing ==> i.band.missing < 3) && i.lastData + capacity >= 0
  }

  /** What an evaluation may make of a metric series; ran says whether the metric clock has started. */
  predicate Possible(c: Config, i: Info, k: Key, f: Findout, open: int, ran: bool) {
    if ran then Truthful(i, f.metric(k), open - 1, c.capacity) else f.metric(k) == [] && open <= 0
  }

  /** Does garbage collection after this evaluation drop the series under its firing finding? Decided by
      the series before the evaluation, and by whether its absence finding fires. */
  predicate Loses(c: Config, i: Info, k: Key, f: Findout, open: int) {
    LosesFiring(i, open, c.capacity) && GoneAfter(c, i, k, f).presence != Gone
  }

  /** Exactly then a series is still firing and dropped. */
  lemma LosesMeans(c: Config, i: Info, k: Key, f: Findout, open: int, ran: bool)
    requires Sane(i, c.capacity) && Possible(c, i, k, f, open, ran)
    ensures var j := EvaluatedMetric(c, i, k, f, open - 1);
      Sane(j, c.capacity) && (j.band.firing && DropsMetric(j, open, c.capacity) <==> Loses(c, i, k, f, open))
  {
    if ran {
      LosesExactly(i, f.metric(k), open, c.forBuckets, c.capacity);
    }
  }

  /** What goes wrong with the finding of one key in one evaluation. Metric events are applied before log
      events, so of two series with this key the log series has the last word if its events open or close
      the finding, which is then wrong if the metric series is firing and kept. Otherwise it is wrong if a
      firing metric series is dropped, or its events opened or closed the finding of a firing log series. */
  predicate GoesWrong(c: Config, prom: Store, logs: Store, f: Findout, open: int, k: Key) {
    var lost := k in prom && Loses(c, prom[k], k, f, open);
    if k in logs && Changes(LogKinds(c, logs[k], k, f))
    then k in prom && MetricBand(c, prom[k], k, f).firing && !lost
    else lost || (k in prom && k in logs && Changes(MetricKinds(c, prom[k], k, f)) && LogBand(c, logs[k], k, f).firing)
  }

  ghost predicate NothingGoesWrong(c: Config, prom: Store, logs: Store, f: Findout, open: int) {
    forall k {:trigger GoesWrong(c, prom, logs, f, open, k)} :: !GoesWrong(c, prom, logs, f, open, k)
  }

  ghost predicate AllPossible(c: Config, prom: Store, f: Findout, open: int, ran: bool) {
    forall k :: k in prom ==> Possible(c, prom[k], k, f, open, ran)
  }

  ghost predicate AllSane(prom: Store, capacity: nat) {
    forall k :: k in prom ==> Sane(prom[k], capacity)
  }

  /** Without shared keys only a dropped series goes wrong. */
  lemma OnlyLosses(c: Config, prom: Store, logs: Store, f: Findout, open: int, k: Key)
    requires !(k in prom && k in logs)
    ensures GoesWrong(c, prom, logs, f, open, k) <==> k in prom && Loses(c, prom[k], k, f, open)
  {
  }

  /** The table after an evaluation, and the stores after garbage collection, agree on a key exactly if
      nothing went wrong with it. */
  lemma SeriesAfter(c: Config, prom: Store, logs: Store, active: Active, f: Findout, em: seq<Event>, el: seq<Event>,
                    openM: int, openL: int, ran: bool, k: Key)
    requires Good(prom, logs, active) && MetricEvents(c, prom, f, em) && LogEvents(c, logs, f, el)
    requires k in prom ==> Sane(prom[k], c.capacity) && Possible(c, prom[k], k, f, openM, ran)
    ensures var p', l' := AllMetrics(c, prom, f, openM - 1), AllLogs(c, logs, f, openL - 1);
      SeriesMatch(KeptMetrics(p', openM, c.capacity), KeptLogs(l', openL, c.logSeason), ApplyAll(active, em + el), k)
      <==> !GoesWrong(c, prom, logs, f, openM, k)
  {
    hide ApplyAll, MetricKinds, LogKinds, Run, MetricEvents, LogEvents, Loses, RunTrack, Changes, DropsMetric, Possible;
    ApplyConcat(active, em, el);
    assert SeriesMatch(prom, logs, active, k);
    GoodHome(prom, logs, active, k);
    AfterLogEvents(c, logs, ApplyAll(active, em), f, el, k);
    if k in prom {
      LosesMeans(c, prom[k], k, f, openM, ran);
    }
    if IsAbsent(prom.Keys, k) {
      var p :| p in prom && k == AbsentKey(p);
      AfterAbsenceEvents(c, prom, active, f, em, p);
    } else {
      AfterMetricEvents(c, prom, active, f, em, k);
    }
  }

  /** Every active key still tells where its series is. */
  lemma HomeAfter(c: Config, prom: Store, logs: Store, active: Active, f: Findout, em: seq<Event>, el: seq<Event>, k: Key)
    requires Good(prom, logs, active) && MetricEvents(c, prom, f, em) && LogEvents(c, logs, f, el)
    ensures HomeAt(prom.Keys, logs.Keys, ApplyAll(active, em + el), k)
  {
    hide ApplyAll, MetricKinds, LogKinds, AbsentKinds, MetricBand, LogBand, GoneAfter, MetricEvents, LogEvents, Changes;
    ApplyConcat(active, em, el);
    GoodHome(prom, logs, active, k);
    AfterLogEvents(c, logs, ApplyAll(active, em), f, el, k);
    if IsAbsent(prom.Keys, k) {
      var p :| p in prom && k == AbsentKey(p);
      AfterAbsenceEvents(c, prom, active, f, em, p);
    } else {
      AfterMetricEvents(c, prom, active, f, em, k);
    }
  }

  /** Absence findings agree whatever happens: garbage collection spares their series. */
  lemma AbsenceAfterAll(c: Config, prom: Store, logs: Store, active: Active, f: Findout, em: seq<Event>, el: seq<Event>, open: int,
                        k: Key)
    requires Good(prom, logs, active) && MetricEvents(c, prom, f, em) && LogEvents(c, logs, f, el)
    ensures AbsenceMatches(KeptMetrics(AllMetrics(c, prom, f, open - 1), open, c.capacity), ApplyAll(active, em + el), k)
  {
    hide ApplyAll, MetricKinds, AbsentKinds, LogKinds, MetricBand, Run, MetricEvents, LogEvents, RunTrack, Changes, AbsentKey;
    if k in prom {
      GoodHome(prom, logs, active, AbsentKey(k));
      ApplyConcat(active, em, el);
      AfterAbsenceEvents(c, prom, active, f, em, k);
      AfterLogEvents(c, logs, ApplyAll(active, em), f, el, AbsentKey(k));
      assert AbsenceMatches(prom, active, k);
    } else {
      HomeAfter(c, prom, logs, active, f, em, el, AbsentKey(k));
      forall p | AbsentKey(k) == AbsentKey(p) ensures p == k {
        AbsentKeyInjective(k, p);
      }
    }
  }

  /** After one evaluation from an agreeing state, table and flags agree exactly if nothing goes wrong with
      any key. */
  lemma EvaluationExactly(c: Config, prom: Store, logs: Store, active: Active, f: Findout, em: seq<Event>, el: seq<Event>,
                          openM: int, openL: int, ran: bool)
    requires Good(prom, logs, active) && MetricEvents(c, prom, f, em) && LogEvents(c, logs, f, el)
    requires AllSane(prom, c.capacity) && AllPossible(c, prom, f, openM, ran)
    ensures var p' := KeptMetrics(AllMetrics(c, prom, f, openM - 1), openM, c.capacity);
      var l' := KeptLogs(AllLogs(c, logs, f, openL - 1), openL, c.logSeason);
      Matches(p', l', ApplyAll(active, em + el)) <==> NothingGoesWrong(c, prom, logs, f, openM)
  {
    hide ApplyAll, GoesWrong, SeriesMatch, AbsenceMatches, KeptMetrics, KeptLogs, AllMetrics, AllLogs, MetricEvents, LogEvents, Sane,
      Possible, Good;
    var p' := KeptMetrics(AllMetrics(c, prom, f, openM - 1), openM, c.capacity);
    var l' := KeptLogs(AllLogs(c, logs, f, openL - 1), openL, c.logSeason);
    var r := ApplyAll(active, em + el);
    forall k ensures SeriesMatch(p', l', r, k) <==> !GoesWrong(c, prom, logs, f, openM, k) {
      SeriesAfter(c, prom, logs, active, f, em, el, openM, openL, ran, k);
    }
    forall k ensures AbsenceMatches(p', r, k) {
      AbsenceAfterAll(c, prom, logs, active, f, em, el, openM, k);
    }
    forall k ensures ActiveAs(r, k, MetricAbsent) ==> exists p :: k == AbsentKey(p) {
      HomeAfter(c, prom, logs, active, f, em, el, k);
    }
    if NothingGoesWrong(c, prom, logs, f, openM) {
      assert Matches(p', l', r);
    } else {
      var k :| GoesWrong(c, prom, logs, f, openM, k);
      assert !SeriesMatch(p', l', r, k);
    }
  }
}
