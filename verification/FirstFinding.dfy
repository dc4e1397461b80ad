/** A series that is level for two seasons and then rises once: a run of samples that fires, as a metric or as a
    log series, and what a silence after it comes to. */
module FirstFinding {
  import opened Numbers
  import opened Options
  import opened Findings
  import opened Recency
  import Medians
  import Buckets
  import Rings
  import Scorer
  import ScoreLaws
  import Evaluation
  import SeriesRun

  // --- scoring a level series -----------------------------------------------------------------------

  predicate AllAre(s: seq<real>, v: real) {
    forall i :: 0 <= i < |s| ==> s[i] == v
  }

  lemma MedianLevel(s: seq<real>, v: real)
    requires s != [] && AllAre(s, v)
    ensures Medians.Median(s) == v && Medians.Mad(s) == 0.0
  {
    Medians.MedianRobust(s, Medians.Places(|s|), v, v);
    Medians.MadRobust(s, Medians.Places(|s|), v, v);
  }

  /** Every known value before end is one. */
  predicate Level(points: map<int, real>, end: int) {
    forall t :: t in points && t < end ==> points[t] == 1.0
  }

  lemma {:induction false} HistoryLevel(points: map<int, real>, t: int, season: nat, k: nat, end: int)
    requires Level(points, end) && season > 0 && t <= end
    ensures AllAre(Scorer.History(points, t, season, k), 1.0)
    ensures (exists j: nat {:trigger Scorer.KnownBack(points, t, season, j)} ::
               1 <= j <= k && Scorer.KnownBack(points, t, season, j)) ==>
      Scorer.History(points, t, season, k) != []
  {
    Scorer.HistoryKnown(points, t, season, k);
    if k > 0 {
      HistoryLevel(points, t, season, k - 1, end);
      Scorer.Product(1, k, season);
    }
  }

  lemma ExpectedLevel(points: map<int, real>, t: int, p: Scorer.Params, end: int)
    requires Level(points, end) && p.season > 0 && t <= end
    ensures Scorer.ExpectedAt(points, t, p).Some? ==> Scorer.ExpectedAt(points, t, p).value == 1.0 && p.seasons >= 1
    ensures p.seasons >= 1 && t - p.season in points ==> Scorer.ExpectedAt(points, t, p).Some?
  {
    HistoryLevel(points, t, p.season, Scorer.Seasons(p), end);
    if p.seasons >= 1 && t - p.season in points {
      assert Scorer.KnownBack(points, t, p.season, 1);
    }
    var h := Scorer.History(points, t, p.season, Scorer.Seasons(p));
    if h != [] {
      MedianLevel(h, 1.0);
    }
  }

  lemma {:induction false} WindowLevel(points: map<int, real>, from: int, end: int)
    requires Level(points, end)
    ensures AllAre(Scorer.Window(points, from, end), 1.0)
    decreases end - from
  {
    if from < end {
      WindowLevel(points, from, end - 1);
    }
  }

  lemma WindowOneMore(points: map<int, real>, from: int, end: int)
    requires from < end && end - 1 in points
    ensures |Scorer.Window(points, from, end)| == |Scorer.Window(points, from, end - 1)| + 1
  {
  }

  /** A level series is compared with one. */
  lemma BaselineLevel(points: map<int, real>, t: int, p: Scorer.Params, end: int)
    requires Level(points, end) && p.season > 0 && t <= end
    ensures Scorer.Baseline(points, t, p).Some? ==> Scorer.Baseline(points, t, p).value.expected == 1.0
  {
    hide Scorer.ExpectedAt;
    ExpectedLevel(points, t, p, end);
    WindowLevel(points, t - p.lookback, t);
    var w := Scorer.Window(points, t - p.lookback, t);
    if |w| >= 3 {
      MedianLevel(w, 1.0);
    }
  }

  /** The buckets are known, and if seasonal those a season before. */
  predicate Covered(points: map<int, real>, p: Scorer.Params, from: int, until: int, seasonal: bool) {
    && (seasonal ==> p.seasons >= 1)
    && forall t {:trigger t in points} :: from <= t < until ==> t in points && (seasonal ==> t - p.season in points)
  }

  lemma {:induction false} ResidualsLevel(points: map<int, real>, from: int, until: int, p: Scorer.Params, seasonal: bool, end: int)
    requires Level(points, end) && p.season > 0 && until <= end
    ensures AllAre(Scorer.Residuals(points, from, until, p, seasonal, 1.0), 0.0)
    ensures from <= until && Covered(points, p, from, until, seasonal) ==>
      |Scorer.Residuals(points, from, until, p, seasonal, 1.0)| == until - from
    decreases until - from
  {
    hide Scorer.ExpectedAt;
    if from < until {
      ExpectedLevel(points, until - 1, p, end);
      ResidualsLevel(points, from, until - 1, p, seasonal, end);
      if Covered(points, p, from, until, seasonal) {
        assert until - 1 in points && Covered(points, p, from, until - 1, seasonal);
        assert |Scorer.Residual(points, until - 1, p, seasonal, 1.0)| == 1;
      }
    }
  }

  /** Its robust scale is zero. */
  lemma ScaleLevel(points: map<int, real>, t: int, p: Scorer.Params, end: int)
    requires Level(points, end) && p.season > 0 && t <= end && Scorer.Baseline(points, t, p).Some?
    ensures var mad := Scorer.RobustScale(points, t, p, Scorer.Baseline(points, t, p).value); mad.Some? ==> mad.value == 0.0
  {
    hide Scorer.Baseline, Scorer.Residuals;
    BaselineLevel(points, t, p, end);
    var base := Scorer.Baseline(points, t, p).value;
    ResidualsLevel(points, t - p.season, t, p, base.seasonal, end);
    var r := Scorer.LastSeason(points, t, p, base);
    if |r| >= 10 {
      MedianLevel(r, 0.0);
    }
  }

  /** The season before end is known, and the one before that if the seasonal median looks there. */
  predicate Enough(points: map<int, real>, p: Scorer.Params, end: int) {
    p.season >= 10 && (p.seasons >= 1 || p.lookback >= 3) && Covered(points, p, end - p.season, end, p.seasons >= 1)
  }

  /** After that there is something to compare with, and a scale. */
  lemma EnoughToScore(points: map<int, real>, p: Scorer.Params, end: int)
    requires Level(points, end) && Enough(points, p, end)
    ensures Scorer.Baseline(points, end, p).Some?
    ensures Scorer.RobustScale(points, end, p, Scorer.Baseline(points, end, p).value) == Some(0.0)
  {
    hide Scorer.ExpectedAt, Scorer.Residuals, Scorer.Window, Medians.Median, Medians.Mad;
    assert end - p.season in points;
    assert end - 1 in points && end - 2 in points && end - 3 in points;
    ExpectedLevel(points, end, p, end);
    if p.lookback >= 3 {
      WindowOneMore(points, end - p.lookback, end);
      WindowOneMore(points, end - p.lookback, end - 1);
      WindowOneMore(points, end - p.lookback, end - 2);
    }
    BaselineLevel(points, end, p, end);
    var base := Scorer.Baseline(points, end, p).value;
    ResidualsLevel(points, end - p.season, end, p, base.seasonal, end);
    ScaleLevel(points, end, p, end);
  }

  // --- a rise ---------------------------------------------------------------------------------------

  /** The scale that a level series is scored with. */
  function LevelScale(p: Scorer.Params, sqrt: real -> real): (s: real)
    ensures s >= 0.0
  {
    var floored := Scorer.Floored(0.0, 1.0, p);
    if p.poisson then Scorer.Max(floored, Scorer.Root(sqrt, Scorer.Max(1.0, 1.0))) else floored
  }

  /** A whole number above one and, by more than one, above x and y. */
  function WholeAbove(x: real, y: real): (v: real)
    ensures v > 1.0 && v >= y && v - 1.0 >= x && v.Floor as real == v
  {
    var top := Scorer.Max(x, Scorer.Max(y, 0.0));
    (top.Floor + 3) as real
  }

  /** A value that is anomalous after a level series. */
  function Peak(p: Scorer.Params, minVol: real, threshold: real, sqrt: real -> real): real {
    WholeAbove(threshold * LevelScale(p, sqrt), minVol)
  }

  /** A series that is level before bucket end and has some value there. */
  predicate LevelUntil(v: Evaluation.View, end: int) {
    Level(v.points, end) && Enough(v.points, v.params, end) && v.threshold > 0.0 && end in v.points
  }

  /** Before it nothing is anomalous, whatever the scale. */
  lemma LevelIsNormal(v: Evaluation.View, b: int, mad: Option<real>, end: int, sqrt: real -> real)
    requires LevelUntil(v, end) && b < end
    ensures Evaluation.OutcomeOf(v, Scorer.Widened(Scorer.ScoreScaled(v.points, b, v.params, mad), v.params, sqrt)) != Scored(true)
  {
    hide Scorer.Baseline, Scorer.Floored, Scorer.HalfBand;
    BaselineLevel(v.points, b, v.params, end);
  }

  lemma JumpScore(v: Evaluation.View, end: int, sqrt: real -> real) returns (base: Scorer.Base)
    requires LevelUntil(v, end)
    ensures base.expected == 1.0
    ensures Scorer.Widened(Scorer.ScoreScaled(v.points, end, v.params, Some(0.0)), v.params, sqrt)
         == Some(Scorer.WithFloors(v.points[end], base, 0.0, v.params, sqrt))
  {
    hide Scorer.Baseline, Scorer.Widened, Scorer.WithFloors, Scorer.Scored, Scorer.Floored, Scorer.RobustScale, Level, Enough;
    EnoughToScore(v.points, v.params, end);
    ParamsOf(v, end);
    base := Scorer.Baseline(v.points, end, v.params).value;
    Scorer.WithFloorsIs(v.points[end], base, 0.0, v.params, sqrt);
  }

  lemma LevelFloors(obs: real, base: Scorer.Base, p: Scorer.Params, sqrt: real -> real)
    requires base.expected == 1.0
    ensures var r := Scorer.WithFloors(obs, base, 0.0, p, sqrt); r.observed == obs && r.expected == 1.0 && r.scale == LevelScale(p, sqrt)
  {
    hide Scorer.Quotient, Scorer.HalfBand;
  }

  /** There it is anomalous exactly if the value is out of the band around one. */
  lemma JumpIsJudged(v: Evaluation.View, end: int, sqrt: real -> real)
    requires LevelUntil(v, end)
    ensures var r := Scorer.Widened(Scorer.ScoreScaled(v.points, end, v.params, Some(0.0)), v.params, sqrt);
      Evaluation.OutcomeOf(v, r) == Scored(Evaluation.OutOfBand(v, v.points[end], 1.0, LevelScale(v.params, sqrt)))
  {
    hide Scorer.Widened, Scorer.ScoreScaled, Scorer.WithFloors, Level, Enough, Evaluation.Anomalous, Evaluation.OutOfBand, LevelScale,
      ScoreLaws.BandOf;
    var base := JumpScore(v, end, sqrt);
    LevelFloors(v.points[end], base, v.params, sqrt);
    ScoreLaws.FloorsBand(v.points[end], base, 0.0, v.params, sqrt);
    Evaluation.ScoredOutOfBand(v, Scorer.WithFloors(v.points[end], base, 0.0, v.params, sqrt), v.params);
  }

  lemma ParamsOf(v: Evaluation.View, end: int)
    requires LevelUntil(v, end)
    ensures v.params.season > 0 && Level(v.points, end)
    ensures Scorer.Baseline(v.points, end, v.params).Some? ==> Scorer.Baseline(v.points, end, v.params).value.expected == 1.0
  {
    BaselineLevel(v.points, end, v.params, end);
  }

  /** And the scale is that of a level series, whether it is reused or not. */
  lemma JumpScale(v: Evaluation.View, from: int, end: int, sqrt: real -> real)
    requires LevelUntil(v, end) && from <= end
    ensures Evaluation.ScaleAt(v, from, end, Evaluation.Memory(None, None), sqrt) == Some(0.0)
  {
    hide Scorer.Baseline, Scorer.RobustScale, Evaluation.MemoryAfter, Level, Enough;
    EnoughToScore(v.points, v.params, end);
    ParamsOf(v, end);
    var scale := Evaluation.ScaleAtIs(v, from, end, Evaluation.Memory(None, None), sqrt);
    ScaleLevel(v.points, scale.at, v.params, end);
  }

  /** A first evaluation of a level series finds its last bucket anomalous exactly if the value there is out of the
      band around one, and no other bucket. */
  lemma JumpOutcomes(v: Evaluation.View, end: int, sqrt: real -> real) returns (a: Outcome, b: Outcome)
    requires LevelUntil(v, end)
    ensures a != Scored(true) && b != Scored(true)
    ensures Evaluation.Outcomes(v, end - 2, 3, Evaluation.Memory(None, None), sqrt)
         == [a, b, Scored(Evaluation.OutOfBand(v, v.points[end], 1.0, LevelScale(v.params, sqrt)))]
  {
    hide Scorer.ScoreScaled, Scorer.Widened, Evaluation.OutcomeOf, Evaluation.ScaleAt, Evaluation.Outcomes, Evaluation.MemoryAfter,
      Evaluation.OutOfBand, LevelScale, Level, Enough;
    var m, o := Evaluation.Memory(None, None), Evaluation.Outcomes(v, end - 2, 3, Evaluation.Memory(None, None), sqrt);
    a, b := o[0], o[1];
    Evaluation.OutcomesAreJudged(v, end - 2, 3, m, sqrt, 0);
    Evaluation.OutcomesAreJudged(v, end - 2, 3, m, sqrt, 1);
    Evaluation.OutcomesAreJudged(v, end - 2, 3, m, sqrt, 2);
    LevelIsNormal(v, end - 2, Evaluation.ScaleAt(v, end - 2, end - 2, m, sqrt), end, sqrt);
    LevelIsNormal(v, end - 1, Evaluation.ScaleAt(v, end - 2, end - 1, m, sqrt), end, sqrt);
    JumpScale(v, end - 2, end, sqrt);
    JumpIsJudged(v, end, sqrt);
  }

  /** A rise to a value that is high enough, or a drop to one that is low enough. */
  predicate Rises(v: Evaluation.View, end: int, sqrt: real -> real) {
    LevelUntil(v, end) && v.dir != -1 && v.points[end] == Peak(v.params, v.minVol, v.threshold, sqrt)
  }

  predicate Drops(v: Evaluation.View, end: int, sqrt: real -> real) {
    && LevelUntil(v, end) && v.dir != 1 && v.minVol <= 1.0
    && v.points[end] < 1.0 && v.points[end] <= 1.0 - v.threshold * LevelScale(v.params, sqrt)
  }

  /** A first evaluation up to a rise finds one anomalous bucket, the last. */
  lemma RiseOutcomes(v: Evaluation.View, end: int, sqrt: real -> real) returns (a: Outcome, b: Outcome)
    requires Rises(v, end, sqrt)
    ensures a != Scored(true) && b != Scored(true)
    ensures Evaluation.Outcomes(v, end - 2, 3, Evaluation.Memory(None, None), sqrt) == [a, b, Scored(true)]
  {
    hide LevelUntil, LevelScale, Evaluation.Outcomes;
    a, b := JumpOutcomes(v, end, sqrt);
  }

  /** And so does one up to a drop, if drops count for the series: an outage is found like a peak. */
  lemma DropOutcomes(v: Evaluation.View, end: int, sqrt: real -> real) returns (a: Outcome, b: Outcome)
    requires Drops(v, end, sqrt)
    ensures a != Scored(true) && b != Scored(true)
    ensures Evaluation.Outcomes(v, end - 2, 3, Evaluation.Memory(None, None), sqrt) == [a, b, Scored(true)]
  {
    hide LevelUntil, LevelScale, Evaluation.Outcomes;
    a, b := JumpOutcomes(v, end, sqrt);
  }

  lemma StaysCalm(st: Band, o: Outcome)
    requires !st.firing && o != Scored(true)
    ensures var (after, e) := Step(st, o, 1); !after.firing && e == None
  {
  }

  lemma FiresNow(st: Band)
    requires !st.firing
    ensures var (after, e) := Step(st, Scored(true), 1); after.firing && after.missing == 0 && e == Some(Fire)
  {
  }

  /** Which fires when one anomalous bucket is enough. */
  lemma FiresOnce(a: Outcome, b: Outcome)
    requires a != Scored(true) && b != Scored(true)
    ensures var o := [a, b, Scored(true)];
      var r := Run(Initial(false), o, 1);
      r.firing && r.missing == 0 && Emitted(Initial(false), o, 1) == [Fire] && LastScored(o) == 2
  {
    hide Run, Emitted, Step;
    var st := Initial(false);
    NoOutcomes(st);
    Evaluation.RunMore(st, [], a, 1);
    Evaluation.RunMore(st, [] + [a], b, 1);
    Evaluation.RunMore(st, [] + [a] + [b], Scored(true), 1);
    StaysCalm(st, a);
    StaysCalm(Run(st, [] + [a], 1), b);
    FiresNow(Run(st, [] + [a] + [b], 1));
    assert [] + [a] + [b] + [Scored(true)] == [a, b, Scored(true)];
  }

  lemma NoOutcomes(st: Band)
    ensures Run(st, [], 1) == st && Emitted(st, [], 1) == []
  {
  }

  // --- the samples of it ----------------------------------------------------------------------------

  /** One sample of value one in each of the buckets before k. */
  function Flat(k: nat): seq<Buckets.Event> {
    if k == 0 then [] else Flat(k - 1) + [Buckets.Sample(k - 1, 1.0)]
  }

  /** A book with values in the buckets before its open one, and one sample in that. */
  ghost predicate FlatBook(k: Buckets.Book, agg: Buckets.Agg, head: int) {
    && k.agg == agg && k.head == head && k.acc == 1.0 && k.cnt == 1
    && forall b {:trigger b in k.vals} :: (b in k.vals <==> 0 <= b < head) && (b in k.vals ==> k.vals[b] == 1.0)
  }

  lemma FlatOnce(agg: Buckets.Agg)
    ensures FlatBook(Buckets.Add(Buckets.Empty(agg), 0, 1.0), agg, 0)
  {
  }

  lemma FlatMore(k: Buckets.Book, agg: Buckets.Agg, head: nat)
    requires FlatBook(k, agg, head)
    ensures FlatBook(Buckets.Add(k, head + 1, 1.0), agg, head + 1)
  {
  }

  /** The book after two seasons of ones and one sample of value v, closed. */
  ghost predicate RiseBook(k: Buckets.Book, end: int, v: real) {
    && k.head == end + 1 && k.cnt == 0
    && forall b {:trigger b in k.vals} ::
         (b in k.vals <==> 0 <= b <= end) && (b in k.vals ==> k.vals[b] == if b == end then v else 1.0)
  }

  lemma FlatRises(k: Buckets.Book, agg: Buckets.Agg, end: nat, v: real)
    requires end > 0 && FlatBook(k, agg, end - 1)
    ensures RiseBook(Buckets.Advance(Buckets.Add(k, end, v), end + 1), end, v)
  {
  }

  lemma {:induction false} FlatRun(agg: Buckets.Agg, k: nat)
    requires k > 0
    ensures FlatBook(Buckets.Run(agg, Flat(k)), agg, k - 1)
  {
    hide FlatBook, Buckets.Run, Buckets.Add;
    Scorer.RunOneMore(agg, Flat(k - 1), Buckets.Sample(k - 1, 1.0));
    if k == 1 {
      FlatOnce(agg);
      NoEvents(agg);
    } else {
      FlatRun(agg, k - 1);
      FlatMore(Buckets.Run(agg, Flat(k - 1)), agg, k - 2);
    }
  }

  lemma NoEvents(agg: Buckets.Agg)
    ensures Flat(0) == [] && Buckets.Run(agg, []) == Buckets.Empty(agg)
  {
  }

  /** The samples of a series that is level for two seasons and then has one of value v. */
  function Samples(season: nat, v: real): seq<Buckets.Event> {
    Flat(2 * season) + [Buckets.Sample(2 * season, v)]
  }

  lemma SamplesRise(agg: Buckets.Agg, season: nat, v: real)
    requires season > 0
    ensures RiseBook(Buckets.Advance(Buckets.Run(agg, Samples(season, v)), 2 * season + 1), 2 * season, v)
  {
    hide FlatBook, RiseBook, Buckets.Run, Buckets.Advance;
    FlatRun(agg, 2 * season);
    Scorer.RunOneMore(agg, Flat(2 * season), Buckets.Sample(2 * season, v));
    FlatRises(Buckets.Run(agg, Flat(2 * season)), agg, 2 * season, v);
  }

  /** With these parameters a ring of the server's size can be scored at all. */
  predicate Scorable(p: Scorer.Params) {
    p.season >= 10 && p.seasons >= 0 && (p.seasons >= 1 || p.lookback >= 3)
  }

  lemma RingHolds(p: Scorer.Params)
    requires Scorable(p)
    ensures Scorer.RingSize(p) >= p.season + 2 && (p.seasons >= 1 ==> Scorer.RingSize(p) >= 2 * p.season + 2)
  {
    Scorer.Product(0, p.seasons, p.season);
    assert (p.seasons + 1) * p.season == p.seasons * p.season + p.season;
    if p.seasons >= 1 {
      Scorer.Product(1, p.seasons, p.season);
    }
  }

  /** The view of a ring at least that large. */
  lemma RingRises(k: Buckets.Book, n: nat, v: Evaluation.View, sqrt: real -> real)
    requires Scorable(v.params) && n >= Scorer.RingSize(v.params) && v.dir != -1 && v.threshold > 0.0
    requires RiseBook(k, 2 * v.params.season, Peak(v.params, v.minVol, v.threshold, sqrt))
    requires v.points == Rings.Newest(k.vals, k.head, n)
    ensures Rises(v, 2 * v.params.season, sqrt)
  {
    hide Peak, Scorer.RingSize, RiseBook;
    var p, end, top := v.params, 2 * v.params.season, Peak(v.params, v.minVol, v.threshold, sqrt);
    RingHolds(p);
    forall t {:trigger t in v.points} | end - p.season <= t < end ensures t in v.points && (p.seasons >= 1 ==> t - p.season in v.points) {
      RiseHeld(k, end, top, n, t);
      RiseHeld(k, end, top, n, t - p.season);
    }
    RiseHeld(k, end, top, n, end);
    forall t | t in v.points && t < end ensures v.points[t] == 1.0 {
      RiseHeld(k, end, top, n, t);
    }
  }

  lemma RiseHeld(k: Buckets.Book, end: int, v: real, n: nat, t: int)
    requires RiseBook(k, end, v)
    ensures var points := Rings.Newest(k.vals, k.head, n);
      && (end + 1 - n < t <= end && t >= 0 ==> t in points)
      && (t in points ==> points[t] == if t == end then v else 1.0)
  {
  }

  // --- a metric series ------------------------------------------------------------------------------

  function FlatSteps(k: nat): seq<SeriesRun.Step> {
    if k == 0 then [] else FlatSteps(k - 1) + [SeriesRun.Deliver(k - 1, 1.0)]
  }

  /** The samples of a rise. */
  function SampleSteps(c: SeriesRun.Setting): seq<SeriesRun.Step>
    requires c.params.season >= 0
  {
    var end := 2 * c.params.season;
    FlatSteps(end) + [SeriesRun.Deliver(end, Peak(c.params, c.minVol, c.threshold, c.sqrt))]
  }

  /** The run that fires: the samples arrive, and the series is evaluated. */
  function RiseSteps(c: SeriesRun.Setting): seq<SeriesRun.Step>
    requires c.params.season >= 0
  {
    SampleSteps(c) + [SeriesRun.Evaluate(2 * c.params.season + 1)]
  }

  lemma StepMore(c: SeriesRun.Setting, steps: seq<SeriesRun.Step>, x: SeriesRun.Step)
    ensures SeriesRun.Run(c, steps + [x]) == SeriesRun.Next(c, SeriesRun.Run(c, steps), x)
    ensures SeriesRun.Story(c, steps + [x]) == SeriesRun.Story(c, steps) + [SeriesRun.Happens(c, SeriesRun.Run(c, steps), x)]
  {
    assert (steps + [x])[..|steps|] == steps;
  }

  /** Only delivered samples so far. */
  predicate Unseen(s: SeriesRun.State, last: int) {
    s == SeriesRun.New().(book := s.book, info := Recency.New().(lastData := last))
  }

  lemma {:induction false} FlatState(c: SeriesRun.Setting, k: nat)
    requires k > 0
    ensures var s := SeriesRun.Run(c, FlatSteps(k)); FlatBook(s.book, Buckets.Mean, k - 1) && Unseen(s, k - 1)
  {
    hide FlatBook, Buckets.Add, SeriesRun.Run;
    StepMore(c, FlatSteps(k - 1), SeriesRun.Deliver(k - 1, 1.0));
    if k == 1 {
      FlatOnce(Buckets.Mean);
      NoSteps(c);
    } else {
      FlatState(c, k - 1);
      FlatMore(SeriesRun.Run(c, FlatSteps(k - 1)).book, Buckets.Mean, k - 2);
    }
  }

  lemma NoSteps(c: SeriesRun.Setting)
    ensures FlatSteps(0) == [] && SeriesRun.Run(c, []) == SeriesRun.New() && SeriesRun.Story(c, []) == []
  {
  }

  predicate CanFire(c: SeriesRun.Setting) {
    Scorable(c.params) && c.n >= Scorer.RingSize(c.params) && c.dir != -1 && c.threshold > 0.0 && c.need == 1
  }

  /** So for every ring and settings with which a series can be scored there is a run of samples after which it
      is firing, scored in its last bucket. */
  lemma RiseFires(c: SeriesRun.Setting)
    requires CanFire(c)
    ensures var s := SeriesRun.Run(c, RiseSteps(c));
      && JustScored(s.info, s.trail) && s.info.lastEval == 2 * c.params.season
      && RiseBook(s.book, 2 * c.params.season, Peak(c.params, c.minVol, c.threshold, c.sqrt))
    ensures var o := SeriesRun.Came(c, SeriesRun.Run(c, SampleSteps(c)), 2 * c.params.season + 1);
      |o| == 3 && o[0] != Scored(true) && o[1] != Scored(true) && o[2] == Scored(true)
  {
    hide FlatBook, RiseBook, Buckets.Add, Buckets.Advance, SeriesRun.Run, Peak, Rises, Findings.Run, LastScored,
      Evaluation.Outcomes;
    var end, v := 2 * c.params.season, Peak(c.params, c.minVol, c.threshold, c.sqrt);
    FlatState(c, end);
    StepMore(c, FlatSteps(end), SeriesRun.Deliver(end, v));
    var steps := SampleSteps(c);
    StepMore(c, steps, SeriesRun.Evaluate(end + 1));
    var s := SeriesRun.Run(c, steps);
    FlatRises(SeriesRun.Run(c, FlatSteps(end)).book, Buckets.Mean, end, v);
    var k := Buckets.Advance(s.book, end + 1);
    HeadOf(k, end, v);
    RingRises(k, c.n, SeriesRun.ViewOf(c, k), c.sqrt);
    var a, b := RiseOutcomes(SeriesRun.ViewOf(c, k), end, c.sqrt);
    assert SeriesRun.Came(c, s, end + 1) == [a, b, Scored(true)];
    FiresOnce(a, b);
  }

  lemma HeadOf(k: Buckets.Book, end: int, v: real)
    requires RiseBook(k, end, v)
    ensures k.head == end + 1
  {
  }

  // --- and a silence --------------------------------------------------------------------------------

  /** Over n restarts nothing arrives after bucket a, and each restart comes after two buckets. */
  function SilentSteps(a: int, n: nat): seq<SeriesRun.Step> {
    if n == 0 then [] else SilentSteps(a, n - 1) + [SeriesRun.Evaluate(a + 2 * n + 1), SeriesRun.Restart]
  }

  /** The ring of a series that had its last value in bucket a. */
  ghost predicate QuietBook(k: Buckets.Book, a: int, head: int) {
    && k.agg == Buckets.Mean && k.head == head && k.cnt == 0 && 0 <= a < head && a in k.vals
    && forall b {:trigger b in k.vals} :: b in k.vals ==> b <= a
  }

  lemma QuietAdvance(k: Buckets.Book, a: int, head: int, open: int)
    requires QuietBook(k, a, head) && open >= head
    ensures QuietBook(Buckets.Advance(k, open), a, open)
  {
  }

  lemma QuietNewest(c: SeriesRun.Setting, k: Buckets.Book, a: int, head: int)
    requires QuietBook(k, a, head) && c.n > 0
    ensures SeriesRun.Newest(c, k) == Max(a, head - c.n)
  {
  }

  /** Buckets without a value are refused. */
  lemma QuietOutcomes(v: Evaluation.View, from: int, m: Evaluation.Memory, sqrt: real -> real)
    requires from !in v.points && from + 1 !in v.points
    ensures Evaluation.Outcomes(v, from, 2, m, sqrt) == [Refused, Refused]
  {
    Evaluation.OutcomesAt(v, from, 2, m, sqrt, 0);
    Evaluation.OutcomesAt(v, from, 2, m, sqrt, 1);
  }

  lemma QuietCame(c: SeriesRun.Setting, s: SeriesRun.State, a: int, open: int)
    requires QuietBook(s.book, a, open - 2) && s.info.lastEval == open - 3
    ensures SeriesRun.Came(c, s, open) == [Refused, Refused]
  {
    hide Evaluation.Outcomes, Buckets.Advance;
    QuietAdvance(s.book, a, open - 2, open);
    QuietOutcomes(SeriesRun.ViewOf(c, Buckets.Advance(s.book, open)), open - 2, s.memory, c.sqrt);
  }

  /** The state of a silent series n restarts after bucket a. */
  ghost predicate Quiet(c: SeriesRun.Setting, s: SeriesRun.State, a: int, n: nat) {
    QuietBook(s.book, a, a + 2 * n + 1) && Silent(s.info, s.trail, a, n, c.n)
  }

  lemma QuietRound(c: SeriesRun.Setting, s: SeriesRun.State, a: int, n: nat)
    requires Quiet(c, s, a, n) && c.n > 0
    ensures var x, y := SeriesRun.Evaluate(a + 2 * n + 3), SeriesRun.Restart;
      var s' := SeriesRun.Next(c, s, x);
      && SeriesRun.Happens(c, s, x) == Evaluated([Refused, Refused], a + 2 * n + 2)
      && SeriesRun.Happens(c, s', y) == Restarted(Max(a, a + 2 * n + 3 - c.n))
      && Quiet(c, SeriesRun.Next(c, s', y), a, n + 1)
  {
    hide SeriesRun.Came, SeriesRun.Left, SeriesRun.Newest, Findings.Run, QuietBook, Buckets.Advance;
    QuietCame(c, s, a, a + 2 * n + 3);
    QuietAdvance(s.book, a, a + 2 * n + 1, a + 2 * n + 3);
    QuietNewest(c, Buckets.Advance(s.book, a + 2 * n + 3), a, a + 2 * n + 3);
    OneRound(s.info, s.trail, a, n, c.need, c.n);
  }

  /** To its findings the silence is the one of the bound on restarts. */
  lemma {:induction false} SilenceIs(c: SeriesRun.Setting, steps: seq<SeriesRun.Step>, a: int, n: nat)
    requires Quiet(c, SeriesRun.Run(c, steps), a, 0) && c.n > 0
    ensures Quiet(c, SeriesRun.Run(c, steps + SilentSteps(a, n)), a, n)
    ensures SeriesRun.Story(c, steps + SilentSteps(a, n)) == SeriesRun.Story(c, steps) + Silence(a, n, c.n)
  {
    hide Quiet, SeriesRun.Run, SeriesRun.Story, SeriesRun.Next, SeriesRun.Happens;
    if n == 0 {
      assert steps + SilentSteps(a, 0) == steps && SeriesRun.Story(c, steps) + Silence(a, 0, c.n) == SeriesRun.Story(c, steps);
    } else {
      SilenceIs(c, steps, a, n - 1);
      var before, x, y := steps + SilentSteps(a, n - 1), SeriesRun.Evaluate(a + 2 * n + 1), SeriesRun.Restart;
      QuietRound(c, SeriesRun.Run(c, before), a, n - 1);
      StepMore(c, before, x);
      StepMore(c, before + [x], y);
      assert steps + SilentSteps(a, n) == before + [x] + [y];
    }
  }

  /** After a rise and such a silence the series is dropped under its firing finding exactly when the restarts
      have used up the ring: the bound of RunKeepsFiring is tight for every ring and settings with which a
      series can be scored. */
  lemma SilenceLosesIt(c: SeriesRun.Setting, n: nat)
    requires CanFire(c)
    ensures var a := 2 * c.params.season;
      var s := SeriesRun.Run(c, RiseSteps(c) + SilentSteps(a, n));
      var i := SeriesRun.Next(c, s, SeriesRun.Evaluate(a + 2 * n + 3)).info;
      s.trail.restarts == n && i.band.firing && (DropsMetric(i, a + 2 * n + 3, c.n) <==> 2 * n + 3 > c.n)
  {
    hide SeriesRun.Run, SeriesRun.Came, SeriesRun.Left, Findings.Run, RiseBook, QuietBook, RiseSteps, SilentSteps, Peak,
      Buckets.Advance;
    var a := 2 * c.params.season;
    RiseFires(c);
    RiseIsQuiet(c);
    SilenceIs(c, RiseSteps(c), a, n);
    var s := SeriesRun.Run(c, RiseSteps(c) + SilentSteps(a, n));
    QuietCame(c, s, a, a + 2 * n + 3);
    TwoRefused(s.info.band, c.need);
  }

  lemma RiseIsQuiet(c: SeriesRun.Setting)
    requires CanFire(c)
    ensures Quiet(c, SeriesRun.Run(c, RiseSteps(c)), 2 * c.params.season, 0) && c.n > 0
  {
    hide SeriesRun.Run, Peak, RiseSteps;
    RiseFires(c);
    SeriesRun.RunIsLife(c, RiseSteps(c));
    Scorer.Product(0, c.params.seasons + 1, c.params.season);
  }
}
