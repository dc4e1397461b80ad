/** A metric series that is labelled like a log series has its key, and one can overwrite the finding of the
    other. */
module SharedKey {
  import opened Options
  import opened Findings
  import opened Recency
  import opened Agreement
  import opened Lifecycle
  import Buckets
  import Evaluation
  import SeriesRun
  import FirstFinding

  lemma {:induction false} UnchangedFlag(open: bool, kinds: seq<Kind>)
    requires OpenAfter(open, kinds).Some? && !Changes(kinds)
    ensures OpenAfter(open, kinds) == Some(open)
  {
    if kinds != [] {
      UnchangedFlag(open, kinds[..|kinds|-1]);
    }
  }

  /** Two series that both end up firing and stored always go wrong. */
  lemma BothFiringGoesWrong(c: Config, prom: Store, logs: Store, active: Active, f: Findout, open: int, k: Key)
    requires Good(prom, logs, active) && k in prom && k in logs && !Loses(c, prom[k], k, f, open)
    requires MetricBand(c, prom[k], k, f).firing && LogBand(c, logs[k], k, f).firing
    ensures GoesWrong(c, prom, logs, f, open, k)
  {
    hide MetricKinds, LogKinds, MetricBand, LogBand, Loses, Changes, OpenAfter;
    assert SeriesMatch(prom, logs, active, k);
    MetricGrammar(c, prom[k], k, f);
    LogGrammar(c, logs[k], k, f);
    if !Changes(LogKinds(c, logs[k], k, f)) {
      UnchangedFlag(logs[k].band.firing, LogKinds(c, logs[k], k, f));
      if !Changes(MetricKinds(c, prom[k], k, f)) {
        UnchangedFlag(prom[k].band.firing, MetricKinds(c, prom[k], k, f));
      }
    }
  }

  /** But they need not both fire: a log series that resolves takes a metric finding with it, or leaves none. */
  lemma ResolvingGoesWrong(c: Config, prom: Store, logs: Store, active: Active, f: Findout, open: int, k: Key)
    requires Good(prom, logs, active) && k in prom && k in logs && !Loses(c, prom[k], k, f, open)
    requires MetricBand(c, prom[k], k, f).firing && logs[k].band.firing && !LogBand(c, logs[k], k, f).firing
    ensures GoesWrong(c, prom, logs, f, open, k)
  {
    hide MetricKinds, LogKinds, MetricBand, LogBand, Loses, Changes, OpenAfter;
    LogGrammar(c, logs[k], k, f);
    if !Changes(LogKinds(c, logs[k], k, f)) {
      UnchangedFlag(logs[k].band.firing, LogKinds(c, logs[k], k, f));
    }
  }

  // --- a run ----------------------------------------------------------------------------------------

  lemma OneEvent(k: Key, subject: Subject)
    ensures var e := [Event(k, Fire, subject)];
      && KindsOf(e, k) == [Fire] && AllAbout(e, k, subject)
      && KindsOf(e, AbsentKey(k)) == [] && AllAbout(e, AbsentKey(k), MetricAbsent)
  {
    var e := [Event(k, Fire, subject)];
    assert e[..0] == [] && |AbsentKey(k)| > |k|;
  }

  /** What the first evaluation of a metric series comes to after the samples of a rise. */
  function MetricOutcomes(c: SeriesRun.Setting): seq<Outcome>
    requires c.params.season >= 0
  {
    SeriesRun.Came(c, SeriesRun.Run(c, FirstFinding.SampleSteps(c)), 2 * c.params.season + 1)
  }

  /** And that of a log series after as many lines in each bucket, and more in the last. */
  function LogOutcomes(c: SeriesRun.Setting): seq<Outcome>
    requires c.params.season >= 0
  {
    var end, peak := 2 * c.params.season, FirstFinding.Peak(c.params, c.minVol, c.threshold, c.sqrt);
    var k := Buckets.Advance(Buckets.Run(Buckets.Sum, FirstFinding.Samples(c.params.season, peak)), end + 1);
    Evaluation.Outcomes(SeriesRun.ViewOf(c, k), end - 2, 3, Evaluation.Memory(None, None), c.sqrt)
  }

  /** Three outcomes of which only the last is anomalous. */
  predicate OneRise(o: seq<Outcome>) {
    |o| == 3 && o[0] != Scored(true) && o[1] != Scored(true) && o[2] == Scored(true)
  }

  lemma BothRise(m: SeriesRun.Setting, l: SeriesRun.Setting)
    requires FirstFinding.CanFire(m) && FirstFinding.CanFire(l)
    ensures OneRise(MetricOutcomes(m)) && OneRise(LogOutcomes(l))
  {
    hide FirstFinding.Peak, FirstFinding.RiseBook, FirstFinding.Rises, Buckets.Advance, Buckets.Run, SeriesRun.Run, SeriesRun.Came,
      Evaluation.Outcomes;
    FirstFinding.RiseFires(m);
    var end, peak := 2 * l.params.season, FirstFinding.Peak(l.params, l.minVol, l.threshold, l.sqrt);
    var k := Buckets.Advance(Buckets.Run(Buckets.Sum, FirstFinding.Samples(l.params.season, peak)), end + 1);
    FirstFinding.SamplesRise(Buckets.Sum, l.params.season, peak);
    FirstFinding.RingRises(k, l.n, SeriesRun.ViewOf(l, k), l.sqrt);
    var a, b := FirstFinding.RiseOutcomes(SeriesRun.ViewOf(l, k), end, l.sqrt);
  }

  /** The store after samples up to bucket last of one new series. */
  function Delivered1(k: Key, last: int): Store {
    map[k := New().(lastData := last)]
  }

  lemma RiseEvents(o: seq<Outcome>)
    requires OneRise(o)
    ensures Run(Initial(false), o, 1).firing && Emitted(Initial(false), o, 1) == [Fire]
  {
    FirstFinding.FiresOnce(o[0], o[1]);
    assert o == [o[0], o[1], Scored(true)];
  }

  lemma SharedKeyEvents(c: Config, k: Key, f: Findout, lastM: nat, lastL: nat)
    requires c.forBuckets == 1 && c.capacity >= 3 && f.looks(k) == [] && OneRise(f.metric(k)) && OneRise(f.logs(k))
    ensures MetricEvents(c, Delivered1(k, lastM), f, [Event(k, Fire, Metric)])
    ensures LogEvents(c, Delivered1(k, lastL), f, [Event(k, Fire, LogSeries)])
    ensures AllPossible(c, Delivered1(k, lastM), f, lastM + 1, true)
  {
    RiseEvents(f.metric(k));
    RiseEvents(f.logs(k));
    OneEvent(k, Metric);
    OneEvent(k, LogSeries);
  }

  lemma SharedKeyOutcome(c: Config, k: Key, f: Findout, lastM: nat, lastL: nat)
    requires c.forBuckets == 1 && c.capacity >= 3 && f.looks(k) == [] && OneRise(f.metric(k)) && OneRise(f.logs(k))
    ensures Firing(KeptMetrics(AllMetrics(c, Delivered1(k, lastM), f, lastM), lastM + 1, c.capacity), k)
    ensures Firing(KeptLogs(AllLogs(c, Delivered1(k, lastL), f, lastL), lastL + 1, c.logSeason), k)
    ensures ActiveAs(ApplyAll(map[], [Event(k, Fire, Metric)] + [Event(k, Fire, LogSeries)]), k, LogSeries)
  {
    RiseEvents(f.metric(k));
    RiseEvents(f.logs(k));
    assert [Event(k, Fire, LogSeries)][..0] == [];
    ApplyConcat(map[], [Event(k, Fire, Metric)], [Event(k, Fire, LogSeries)]);
  }

  lemma OneKeyApart(k: Key)
    ensures Apart({k}, {k}, map[]) && Apart({}, {k}, map[]) && Apart({}, {}, map[]) && Apart({k}, {}, map[])
  {
    assert |AbsentKey(k)| > |k|;
  }

  /** A new server that got one sample of the series in each bucket up to last, and as many log lines. */
  method DeliverAll(c: Config, k: Key, lastM: nat, lastL: nat) returns (s: Server)
    ensures fresh(s) && s.Valid() && s.c == c && s.active == map[]
    ensures s.prom == Delivered1(k, lastM) && s.logs == Delivered1(k, lastL)
  {
    hide Apart;
    OneKeyApart(k);
    s := new Server(c);
    for b := 0 to lastM + 1
      invariant fresh(s) && s.Valid() && s.c == c && s.active == map[] && s.logs == map[]
      invariant s.prom == if b == 0 then map[] else Delivered1(k, b - 1)
    {
      assert s.prom.Keys + {k} == {k} && s.logs.Keys == {};
      s.DeliverMetric(k, b);
    }
    for b := 0 to lastL + 1
      invariant fresh(s) && s.Valid() && s.c == c && s.active == map[] && s.prom == Delivered1(k, lastM)
      invariant s.logs == if b == 0 then map[] else Delivered1(k, b - 1)
    {
      assert s.prom.Keys == {k} && s.logs.Keys + {k} == {k};
      s.DeliverLog(k, b);
    }
  }

  /** For every metric and log settings and rings with which a series can be scored: the samples of a rise arrive
      for a metric and a log series with the same key, and both fire in the first evaluation, which comes to what
      the scorer makes of these samples. The finding of the metric series is overwritten. */
  method SharedKeyGoesWrong(k: Key, m: SeriesRun.Setting, l: SeriesRun.Setting) returns (s: Server, f: Findout)
    requires FirstFinding.CanFire(m) && FirstFinding.CanFire(l)
    ensures fresh(s) && s.c == Config(1, 0, 0, m.n, l.params.season)
    ensures f.metric(k) == MetricOutcomes(m) && f.logs(k) == LogOutcomes(l) && f.looks(k) == []
    ensures Firing(s.prom, k) && Firing(s.logs, k) && ActiveAs(s.active, k, LogSeries) && !Matches(s.prom, s.logs, s.active)
  {
    hide MetricEvents, LogEvents, AllPossible, AllMetrics, AllLogs, KeptMetrics, KeptLogs, ApplyAll, NothingGoesWrong, TrailsAfter,
      MetricOutcomes, LogOutcomes, OneRise, Free;
    var lastM, lastL := 2 * m.params.season, 2 * l.params.season;
    BothRise(m, l);
    LargeRing(m);
    var mo, lo := MetricOutcomes(m), LogOutcomes(l);
    f := Findout(_ => mo, _ => [], _ => lo);
    s := DeliverAll(Config(1, 0, 0, m.n, l.params.season), k, lastM, lastL);
    SharedKeyEvents(s.c, k, f, lastM, lastL);
    s.Evaluate(f, [Event(k, Fire, Metric)], [Event(k, Fire, LogSeries)], lastM + 1, lastL + 1, true, {}, {});
    SharedKeyOutcome(s.c, k, f, lastM, lastL);
    assert ActiveAs(s.active, k, LogSeries) && !ActiveAs(s.active, k, Metric);
    assert !SeriesMatch(s.prom, s.logs, s.active, k);
  }

  lemma LargeRing(c: SeriesRun.Setting)
    requires FirstFinding.CanFire(c)
    ensures c.n >= 12 && c.params.season >= 10
  {
    assert (c.params.seasons + 1) * c.params.season >= c.params.season;
  }
}
