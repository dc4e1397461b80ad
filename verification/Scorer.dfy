/** Scoring the newest bucket of a series against its seasonal baseline. The reference works on an
    unbounded map of points; the scorer itself loops over what the ring still holds, sorts its
    scratch lists in place and may reuse a recent robust scale. */
module Scorer {
  import opened Options
  import opened Sequences
  import opened Buckets
  import opened Medians
  import opened Rings

  datatype Params = Params(season: int, seasons: int, lookback: int, threshold: real, absFloor: real, relFloor: real,
                           poisson: bool, scaleEvery: int)

  /** A quotient of floats: without a finite value where the divisor is zero. */
  datatype Ratio = Finite(v: real) | Infinite(positive: bool) | Undefined

  datatype Result = Result(observed: real, expected: real, score: Ratio, upper: real, lower: real, scale: real,
                           seasonal: bool)

  /** What a bucket is compared with: a seasonal value or, in cold start, a recent one. */
  datatype Base = Base(expected: real, seasonal: bool)

  function Max(a: real, b: real): real {
    if a >= b then a else b
  }

  // --- the reference ------------------------------------------------------------------------------

  function Point(points: map<int, real>, t: int): Option<real> {
    if t in points then Some(points[t]) else None
  }

  /** The known values 1 to k seasons before t. */
  function History(points: map<int, real>, t: int, season: int, k: nat): seq<real> {
    if k == 0 then [] else History(points, t, season, k - 1) + Known(Point(points, t - k * season))
  }

  function Seasons(p: Params): nat {
    if p.seasons < 0 then 0 else p.seasons
  }

  /** The seasonal-naive median for t, if any season back is known. */
  function ExpectedAt(points: map<int, real>, t: int, p: Params): Option<real> {
    var h := History(points, t, p.season, Seasons(p));
    if h == [] then None else Some(Median(h))
  }

  /** The known values of [from, end). */
  function Window(points: map<int, real>, from: int, end: int): seq<real>
    decreases end - from
  {
    if end <= from then [] else Window(points, from, end - 1) + Known(Point(points, end - 1))
  }

  /** The expected value now and whether it is seasonal; refused without three recent values. */
  function Baseline(points: map<int, real>, now: int, p: Params): Option<Base> {
    var e := ExpectedAt(points, now, p);
    if e.Some? then Some(Base(e.value, true))
    else
      var recent := Window(points, now - p.lookback, now);
      if |recent| < 3 then None else Some(Base(Median(recent), false))
  }

  /** What the known value at t differs from its own expectation, or in cold start from fixed. */
  function Residual(points: map<int, real>, t: int, p: Params, seasonal: bool, fixed: real): seq<real> {
    var e := if seasonal then ExpectedAt(points, t, p) else Some(fixed);
    if t in points && e.Some? then [points[t] - e.value] else []
  }

  function Residuals(points: map<int, real>, from: int, end: int, p: Params, seasonal: bool, fixed: real): (r: seq<real>)
    ensures |r| <= (if end < from then 0 else end - from)
    decreases end - from
  {
    if end <= from then [] else Residuals(points, from, end - 1, p, seasonal, fixed) + Residual(points, end - 1, p, seasonal, fixed)
  }

  /** The residuals of the last season. */
  function LastSeason(points: map<int, real>, now: int, p: Params, base: Base): seq<real> {
    Residuals(points, now - p.season, now, p, base.seasonal, base.expected)
  }

  /** The robust scale of the last season; refused without ten residuals. */
  function RobustScale(points: map<int, real>, now: int, p: Params, base: Base): Option<real> {
    var r := LastSeason(points, now, p, base);
    if |r| < 10 then None else Some(1.4826 * Mad(r))
  }

  /** x / y for a y that is not negative. */
  function Quotient(x: real, y: real): Ratio {
    if y != 0.0 then Finite(x / y) else if x == 0.0 then Undefined else Infinite(x > 0.0)
  }

  /** Half the width of the band. */
  function HalfBand(p: Params, scale: real): real {
    p.threshold * scale
  }

  function Scored(obs: real, base: Base, scale: real, p: Params): Result {
    Result(obs, base.expected, Quotient(obs - base.expected, scale), base.expected + HalfBand(p, scale),
           base.expected - HalfBand(p, scale), scale, base.seasonal)
  }

  function Floored(mad: real, expected: real, p: Params): real {
    Max(Max(mad, p.absFloor), p.relFloor * Abs(expected))
  }

  /** The reference: the score of bucket now on an unbounded map of points. */
  function ScoreSeries(points: map<int, real>, now: int, p: Params): Option<Result> {
    if now !in points then None
    else
      var base := Baseline(points, now, p);
      if base.None? then None
      else
        var mad := RobustScale(points, now, p, base.value);
        if mad.None? then None else Some(Scored(points[now], base.value, Floored(mad.value, base.value.expected, p), p))
  }

  function Root(sqrt: real -> real, x: real): real {
    sqrt(x)
  }

  /** With count data the scale is at least the root of the expected count. */
  function Widened(r: Option<Result>, p: Params, sqrt: real -> real): (w: Option<Result>)
    ensures w.None? <==> r.None?
    ensures !p.poisson ==> w == r
  {
    if r.None? || !p.poisson then r
    else
      Some(Scored(r.value.observed, Base(r.value.expected, r.value.seasonal),
                  Max(r.value.scale, Root(sqrt, Max(r.value.expected, 1.0))), p))
  }

  // --- with a remembered scale ------------------------------------------------------------------------

  /** A robust scale, the bucket it was computed for, and whether the values then were seasonal. */
  datatype Scale = Scale(mad: real, at: int, seasonal: bool)

  /** Is the scale from the same mode and fewer than scaleEvery buckets old? */
  predicate Fits(scale: Option<Scale>, now: int, p: Params, seasonal: bool) {
    scale.Some? && scale.value.seasonal == seasonal && p.scaleEvery > 0
    && scale.value.at <= now && now - scale.value.at < p.scaleEvery
  }

  /** The score of bucket now with a scale that is reused if it fits, and the scale remembered afterwards. */
  function ScoreWith(points: map<int, real>, now: int, p: Params, scale: Option<Scale>, sqrt: real -> real)
    : (Option<Result>, Option<Scale>)
  {
    var base := if now in points then Baseline(points, now, p) else None;
    if base.None? then (None, scale)
    else
      var fits := Fits(scale, now, p, base.value.seasonal);
      var mad := if fits then Some(scale.value.mad) else RobustScale(points, now, p, base.value);
      if mad.None? then (None, scale)
      else
        (Widened(Some(Scored(points[now], base.value, Floored(mad.value, base.value.expected, p), p)), p, sqrt),
         if fits then scale else Some(Scale(mad.value, now, base.value.seasonal)))
  }

  /** The reference with a given robust scale in place of its own. */
  function ScoreScaled(points: map<int, real>, now: int, p: Params, mad: Option<real>): Option<Result> {
    if now !in points || mad.None? then None
    else
      var base := Baseline(points, now, p);
      if base.None? then None else Some(Scored(points[now], base.value, Floored(mad.value, base.value.expected, p), p))
  }

  /** The robust scale that bucket now is scored with: the remembered one if it fits, else its own. */
  function ScaleUsed(points: map<int, real>, now: int, p: Params, scale: Option<Scale>): Option<real> {
    var base := Baseline(points, now, p);
    if base.None? then None
    else if Fits(scale, now, p, base.value.seasonal) then Some(scale.value.mad) else RobustScale(points, now, p, base.value)
  }

  /** A score is always the reference's with the scale used, and with its own scale it is the reference's. */
  lemma ScoreIsReference(points: map<int, real>, now: int, p: Params, scale: Option<Scale>, sqrt: real -> real)
    ensures ScoreWith(points, now, p, scale, sqrt).0
         == Widened(ScoreScaled(points, now, p, ScaleUsed(points, now, p, scale)), p, sqrt)
    ensures !Fits(scale, now, p, true) && !Fits(scale, now, p, false) ==>
      ScoreScaled(points, now, p, ScaleUsed(points, now, p, scale)) == ScoreSeries(points, now, p)
  {
    hide Baseline, RobustScale, Scored, Floored, Fits;
  }

  /** A bucket is refused exactly when it has no value, nothing to compare with, or neither a fitting scale
      nor ten residuals. */
  lemma RefusedExactly(points: map<int, real>, now: int, p: Params, scale: Option<Scale>, sqrt: real -> real)
    ensures ScoreWith(points, now, p, scale, sqrt).0.None? <==>
      now !in points || Baseline(points, now, p).None?
      || var base := Baseline(points, now, p).value; !Fits(scale, now, p, base.seasonal) && |LastSeason(points, now, p, base)| < 10
  {
    hide Baseline, LastSeason, Scored, Floored, Fits, Mad;
  }

  /** Without a scale that fits, the score is the reference's, widened for count data. */
  lemma ScoreFresh(points: map<int, real>, now: int, p: Params, scale: Option<Scale>, sqrt: real -> real)
    requires !Fits(scale, now, p, true) && !Fits(scale, now, p, false)
    ensures ScoreWith(points, now, p, scale, sqrt).0 == Widened(ScoreSeries(points, now, p), p, sqrt)
  {
    hide Baseline, RobustScale, Scored, Floored, Fits;
  }

  /** A score is a finite number exactly when its scale is not zero; elsewhere the Python job raises. The
      scale is at least the floors, so with a positive one every score is finite. */
  lemma FiniteExactly(points: map<int, real>, now: int, p: Params, scale: Option<Scale>, sqrt: real -> real)
    ensures var r := ScoreSeries(points, now, p);
      r.Some? ==> (r.value.score.Finite? <==> r.value.scale != 0.0) && (p.absFloor > 0.0 ==> r.value.score.Finite?)
    ensures var r := ScoreWith(points, now, p, scale, sqrt).0;
      r.Some? ==> (r.value.score.Finite? <==> r.value.scale != 0.0) && (p.absFloor > 0.0 ==> r.value.score.Finite?)
  {
    hide Baseline, RobustScale, Fits, HalfBand;
  }

  /** With a scale that fits, it differs from the reference in the scale alone. */
  lemma ScoreReused(points: map<int, real>, now: int, p: Params, scale: Option<Scale>, sqrt: real -> real)
    requires now in points && Baseline(points, now, p).Some? && Fits(scale, now, p, Baseline(points, now, p).value.seasonal)
    ensures var r := ScoreWith(points, now, p, scale, sqrt).0;
      && r.Some? && r.value.observed == points[now]
      && Base(r.value.expected, r.value.seasonal) == Baseline(points, now, p).value
      && (ScoreSeries(points, now, p).Some? ==>
            var x := Widened(ScoreSeries(points, now, p), p, sqrt).value;
            r.value.observed == x.observed && r.value.expected == x.expected && r.value.seasonal == x.seasonal)
  {
    hide Baseline, RobustScale, Floored, Fits, Quotient, HalfBand;
  }

  // --- where the reference looks --------------------------------------------------------------------

  /** The two maps agree on the buckets of [from, end]. */
  predicate Agree(a: map<int, real>, b: map<int, real>, from: int, end: int) {
    forall t {:trigger Point(a, t)} {:trigger Point(b, t)} :: from <= t <= end ==> Point(a, t) == Point(b, t)
  }

  lemma Product(k: nat, n: nat, season: nat)
    requires k <= n
    ensures 0 <= k * season <= n * season
  {
  }

  lemma {:induction false} HistoryLocal(a: map<int, real>, b: map<int, real>, t: int, season: nat, k: nat, from: int, end: int)
    requires Agree(a, b, from, end) && from <= t - k * season && t <= end
    ensures History(a, t, season, k) == History(b, t, season, k)
  {
    if k > 0 {
      assert (k - 1) * season == k * season - season;
      Product(0, k, season);
      HistoryLocal(a, b, t, season, k - 1, from, end);
      assert Point(a, t - k * season) == Point(b, t - k * season);
    }
  }

  lemma {:induction false} WindowLocal(a: map<int, real>, b: map<int, real>, from: int, end: int, lo: int, hi: int)
    requires Agree(a, b, lo, hi) && lo <= from && end <= hi + 1
    ensures Window(a, from, end) == Window(b, from, end)
    decreases end - from
  {
    if end > from {
      WindowLocal(a, b, from, end - 1, lo, hi);
      assert Point(a, end - 1) == Point(b, end - 1);
    }
  }

  lemma {:induction false} ResidualsLocal(a: map<int, real>, b: map<int, real>, from: int, end: int, p: Params,
                                          seasonal: bool, fixed: real)
    requires p.season >= 0 && Agree(a, b, from - Seasons(p) * p.season, end - 1)
    ensures Residuals(a, from, end, p, seasonal, fixed) == Residuals(b, from, end, p, seasonal, fixed)
    decreases end - from
  {
    if end > from {
      Product(0, Seasons(p), p.season);
      ResidualsLocal(a, b, from, end - 1, p, seasonal, fixed);
      HistoryLocal(a, b, end - 1, p.season, Seasons(p), from - Seasons(p) * p.season, end - 1);
      assert Point(a, end - 1) == Point(b, end - 1);
    }
  }

  /** How many buckets a ring must hold for scoring its newest closed bucket, open and spare one included. */
  function RingSize(p: Params): int {
    (p.seasons + 1) * p.season + 2
  }

  /** Without any season to look back to, the cold-start window is empty as well. */
  lemma NoSeasons(points: map<int, real>, now: int, p: Params)
    requires p.season >= 0 && p.seasons < 0 && p.lookback <= (p.seasons + 1) * p.season
    ensures Baseline(points, now, p) == None
  {
    Product(0, -(p.seasons + 1), p.season);
    assert (p.seasons + 1) * p.season == -(-(p.seasons + 1) * p.season);
  }

  lemma NoResiduals(points: map<int, real>, now: int, p: Params, base: Base)
    requires p.season < 0
    ensures RobustScale(points, now, p, base) == None
  {
  }

  lemma BaselineLocal(a: map<int, real>, b: map<int, real>, now: int, p: Params, lo: int)
    requires p.seasons >= 0 && p.season >= 0
    requires Agree(a, b, lo, now) && lo <= now - p.lookback && lo <= now - p.seasons * p.season
    ensures Baseline(a, now, p) == Baseline(b, now, p)
  {
    hide History, Window, Agree;
    HistoryLocal(a, b, now, p.season, p.seasons, lo, now);
    WindowLocal(a, b, now - p.lookback, now, lo, now);
  }

  lemma RobustScaleLocal(a: map<int, real>, b: map<int, real>, now: int, p: Params, base: Base)
    requires p.season >= 0 ==> p.seasons >= 0 && Agree(a, b, now - (p.seasons + 1) * p.season, now)
    ensures RobustScale(a, now, p, base) == RobustScale(b, now, p, base)
  {
    if p.season >= 0 {
      assert (p.seasons + 1) * p.season == p.seasons * p.season + p.season;
      ResidualsLocal(a, b, now - p.season, now, p, base.seasonal, base.expected);
    }
  }

  /** Scoring bucket now reads no bucket more than (seasons + 1) seasons back, whatever the parameters,
      so long as the cold-start window is no longer than that. */
  lemma ScoreLocal(a: map<int, real>, b: map<int, real>, now: int, p: Params)
    requires Agree(a, b, now - (p.seasons + 1) * p.season, now) && p.lookback <= (p.seasons + 1) * p.season
    ensures ScoreSeries(a, now, p) == ScoreSeries(b, now, p)
  {
    hide Baseline, RobustScale;
    if p.season < 0 {
      forall points: map<int, real>, base {
        NoResiduals(points, now, p, base);
      }
    } else if p.seasons < 0 {
      NoSeasons(a, now, p);
      NoSeasons(b, now, p);
    } else {
      assert (p.seasons + 1) * p.season == p.seasons * p.season + p.season;
      Product(0, p.seasons, p.season);
      assert Point(a, now) == Point(b, now);
      BaselineLocal(a, b, now, p, now - (p.seasons + 1) * p.season);
      forall base {
        RobustScaleLocal(a, b, now, p, base);
      }
    }
  }

  // --- what a score rests on ------------------------------------------------------------------------

  /** The scale is at least the floors and, if more than half of the last season's residuals lie
      between lo and hi, whatever the others are, at most 1.4826 times that range or the floors. */
  lemma ScaleRobust(points: map<int, real>, now: int, p: Params, kept: set<nat>, lo: real, hi: real)
    requires ScoreSeries(points, now, p).Some?
    requires var r := LastSeason(points, now, p, Baseline(points, now, p).value);
      2 * |kept| > |r| && forall i :: i in kept ==> i < |r| && lo <= r[i] <= hi
    ensures var r := ScoreSeries(points, now, p).value;
      var floor := Max(p.absFloor, p.relFloor * Abs(r.expected));
      floor <= r.scale <= Max(1.4826 * (hi - lo), floor)
  {
    hide Mad, Baseline, Residuals, Residual, ExpectedAt;
    MadRobust(LastSeason(points, now, p, Baseline(points, now, p).value), kept, lo, hi);
  }

  /** A score needs a season of at least ten buckets, and a known value in bucket now and in one of the
      buckets from the tenth of the last season on, or from the tenth on after the first known one. */
  lemma ScoredNeeds(points: map<int, real>, now: int, p: Params, first: int) returns (t: int)
    ensures ScoreSeries(points, now, p).Some? ==>
      p.season >= 10 && now in points && t in points && now - p.season + 9 <= t < now
      && ((forall x :: x in points ==> x >= first) ==> t >= first + 9)
  {
    hide Baseline;
    t := now;
    if ScoreSeries(points, now, p).Some? {
      t := LateResidual(points, now - p.season, now, 10, p, Baseline(points, now, p).value, first);
    }
  }

  lemma {:induction false} LateResidual(points: map<int, real>, from: int, end: int, k: nat, p: Params, base: Base, first: int)
      returns (t: int)
    requires 0 < k <= |Residuals(points, from, end, p, base.seasonal, base.expected)|
    ensures t in points && from + k - 1 <= t < end
    ensures (forall x :: x in points ==> x >= first) ==> t >= first + k - 1
    decreases end - from
  {
    var before := Residuals(points, from, end - 1, p, base.seasonal, base.expected);
    hide ExpectedAt;
    if end - 1 in points {
      t := end - 1;
      if k > 1 {
        var _ := LateResidual(points, from, end - 1, k - 1, p, base, first);
      }
    } else {
      t := LateResidual(points, from, end - 1, k, p, base, first);
    }
  }

  /** The scale is the robust scale for bucket now, of the mode that this bucket is compared in. */
  predicate FreshScale(points: map<int, real>, now: int, p: Params, scale: Scale) {
    && Baseline(points, now, p).Some?
    && var base := Baseline(points, now, p).value;
       scale.at == now && scale.seasonal == base.seasonal && RobustScale(points, now, p, base) == Some(scale.mad)
  }

  /** What a score rests on: a value, and either a scale that fits or ten residuals, which give the scale
      that is remembered. */
  lemma ScoredRests(points: map<int, real>, now: int, p: Params, scale: Option<Scale>, sqrt: real -> real, first: int)
      returns (t: int)
    ensures var (r, after) := ScoreWith(points, now, p, scale, sqrt);
      && (r.None? ==> after == scale)
      && (r.Some? ==> now in points && Baseline(points, now, p).Some?)
      && (r.Some? && Fits(scale, now, p, Baseline(points, now, p).value.seasonal) ==> after == scale)
      && (r.Some? && !Fits(scale, now, p, Baseline(points, now, p).value.seasonal) ==>
            && after.Some? && FreshScale(points, now, p, after.value)
            && p.season >= 10 && t in points && now - p.season + 9 <= t < now
            && ((forall x :: x in points ==> x >= first) ==> t >= first + 9))
  {
    hide Baseline, RobustScale, Scored, Floored, Fits;
    t := ScoredNeeds(points, now, p, first);
  }

  // --- a ring one slot smaller ------------------------------------------------------------------------

  /** One sample of value one in each of the buckets xs. */
  function Ones(xs: seq<int>): seq<Event> {
    if xs == [] then [] else Ones(xs[..|xs|-1]) + [Sample(xs[|xs|-1], 1.0)]
  }

  lemma OpensNext(k: Book, x: int)
    requires k.agg == Mean && k.head >= 0 && k.cnt == 1 && x > k.head
    ensures var after := Apply(k, Sample(x, 1.0));
      after.agg == Mean && after.head == x && after.acc == 1.0 && after.cnt == 1 && after.vals.Keys == k.vals.Keys + {k.head}
  {
  }

  lemma FirstOne(x: int)
    requires x >= 0
    ensures Run(Mean, []) == Empty(Mean) && Apply(Empty(Mean), Sample(x, 1.0)) == Empty(Mean).(head := x, acc := 1.0, cnt := 1)
  {
  }

  lemma RunOneMore(agg: Agg, events: seq<Event>, e: Event)
    ensures Run(agg, events + [e]) == Apply(Run(agg, events), e)
  {
    assert (events + [e])[..|events|] == events;
  }

  lemma {:induction false} OnesRun(xs: seq<int>)
    requires xs != [] && xs[0] >= 0 && Increasing(xs)
    ensures var book := Run(Mean, Ones(xs));
      book.agg == Mean && book.head == xs[|xs|-1] && book.acc == 1.0 && book.cnt == 1
      && forall b {:trigger b in book.vals} :: b in book.vals <==> b in xs[..|xs|-1]
  {
    hide Run, Apply;
    var before, x := xs[..|xs|-1], xs[|xs|-1];
    RunOneMore(Mean, Ones(before), Sample(x, 1.0));
    if before == [] {
      FirstOne(x);
    } else {
      OnesRun(before);
      OpensNext(Run(Mean, Ones(before)), x);
      assert before == before[..|before|-1] + [before[|before|-1]];
    }
  }

  /** The known values k seasons before t. */
  predicate KnownBack(points: map<int, real>, t: int, season: int, k: int) {
    t - k * season in points
  }

  lemma {:induction false} HistoryKnown(points: map<int, real>, t: int, season: int, k: nat)
    ensures History(points, t, season, k) != [] <==>
      exists j {:trigger KnownBack(points, t, season, j)} :: 1 <= j <= k && KnownBack(points, t, season, j)
  {
    if k > 0 {
      HistoryKnown(points, t, season, k - 1);
      assert KnownBack(points, t, season, k) <==> Point(points, t - k * season).Some?;
    }
  }

  predicate HasResidual(points: map<int, real>, t: int, p: Params) {
    t in points && ExpectedAt(points, t, p).Some?
  }

  /** Of ten known values in a row all but perhaps the first have residuals, and there are no others. */
  lemma {:induction false} ResidualCount(points: map<int, real>, from: int, end: int, p: Params, fixed: real)
    requires from < end
    requires forall t {:trigger HasResidual(points, t, p)} :: from < t < from + 10 ==> HasResidual(points, t, p)
    requires forall t :: from + 10 <= t < end ==> t !in points
    ensures |Residuals(points, from, end, p, true, fixed)|
         == (if end - from < 10 then end - from else 10) - if HasResidual(points, from, p) then 0 else 1
    decreases end - from
  {
    hide ExpectedAt;
    assert HasResidual(points, end - 1, p) || end - 1 == from || end - 1 >= from + 10;
    if from < end - 1 {
      ResidualCount(points, from, end - 1, p, fixed);
    } else {
      assert Residuals(points, from, from, p, true, fixed) == [];
    }
  }

  /** Ten buckets at the start of the history, ten at the start of the last season, and the one after it. */
  predicate Sparse(p: Params, b: int) {
    0 <= b < 10 || p.seasons * p.season <= b < p.seasons * p.season + 10 || b == (p.seasons + 1) * p.season
  }

  lemma Multiples(p: Params, k: int)
    requires p.season >= 10 && p.seasons >= 1
    ensures (p.seasons + 1) * p.season == p.seasons * p.season + p.season && p.seasons * p.season >= p.season
    ensures p.seasons * p.season - p.seasons * p.season == 0
    ensures 1 <= k < p.seasons ==> 10 <= p.seasons * p.season - k * p.season < p.seasons * p.season
  {
    assert (p.seasons - 1) * p.season == p.seasons * p.season - p.season;
    Product(0, p.seasons - 1, p.season);
    if 1 <= k < p.seasons {
      assert (p.seasons - k) * p.season == p.seasons * p.season - k * p.season;
      Product(1, p.seasons - k, p.season);
      Product(1, k, p.season);
    }
  }

  /** Of the ten values at the start of the last season all but the first find their past in any case, the
      first only if bucket 0 is known. */
  lemma SparseResidual(points: map<int, real>, p: Params, j: int)
    requires p.season >= 10 && p.seasons >= 1 && 0 <= j < 10
    requires forall b {:trigger b in points} :: b != 0 ==> (b in points <==> Sparse(p, b))
    ensures var k := p.seasons * p.season; HasResidual(points, k + j, p) <==> j > 0 || 0 in points
  {
    hide History;
    var k := p.seasons * p.season;
    Multiples(p, 1);
    HistoryKnown(points, k + j, p.season, p.seasons);
    assert KnownBack(points, k + j, p.season, p.seasons) <==> j in points;
    if j == 0 && 0 !in points {
      forall i | 1 <= i <= p.seasons ensures !KnownBack(points, k, p.season, i) {
        Multiples(p, i);
      }
    }
  }

  /** Scored with bucket 0, refused without. */
  lemma TenExactly(points: map<int, real>, p: Params)
    requires p.season >= 10 && p.seasons >= 1
    requires forall b {:trigger b in points} :: b != 0 ==> (b in points <==> Sparse(p, b))
    ensures ScoreSeries(points, (p.seasons + 1) * p.season, p).Some? <==> 0 in points
  {
    hide Residuals, HasResidual, History;
    var k, d := p.seasons * p.season, (p.seasons + 1) * p.season;
    Multiples(p, 1);
    HistoryKnown(points, d, p.season, p.seasons);
    assert KnownBack(points, d, p.season, 1);
    forall t | k <= t < k + 10 ensures HasResidual(points, t, p) <==> t > k || 0 in points {
      SparseResidual(points, p, t - k);
    }
    ResidualCount(points, k, d, p, ExpectedAt(points, d, p).value);
  }

  function SparseList(p: Params): seq<int> {
    var k, d := p.seasons * p.season, (p.seasons + 1) * p.season;
    seq(10, i => i) + seq(10, i => k + i) + [d]
  }

  lemma SparseListIs(p: Params)
    requires p.season >= 10 && p.seasons >= 1
    ensures Increasing(SparseList(p) + [(p.seasons + 1) * p.season + 1]) && SparseList(p)[0] == 0
    ensures forall b :: b in SparseList(p) <==> Sparse(p, b)
  {
    Multiples(p, 1);
    var s, k := SparseList(p), p.seasons * p.season;
    forall b | Sparse(p, b) ensures b in s {
      if b < 10 {
        assert s[b] == b;
      } else if b < k + 10 {
        assert s[10 + b - k] == b;
      } else {
        assert s[20] == b;
      }
    }
  }

  /** With one slot fewer the ring is too small, for any season of at least ten buckets (with fewer nothing
      is ever scored) and any positive number of seasons: there is a run of samples after which the
      reference scores the newest closed bucket, and so it does on what the whole ring holds, but what a
      ring of one slot fewer holds is refused. */
  lemma OneSlotFewer(p: Params)
    requires p.season >= 10 && p.seasons >= 1
    ensures var n := RingSize(p);
      var book := Run(Mean, Ones(SparseList(p) + [n - 1]));
      && ScoreSeries(book.vals, book.head - 1, p).Some?
      && ScoreSeries(Newest(book.vals, book.head, n), book.head - 1, p).Some?
      && ScoreSeries(Newest(book.vals, book.head, n - 1), book.head - 1, p).None?
  {
    hide Run, Ones, ScoreSeries, SparseList;
    var n, xs := RingSize(p), SparseList(p) + [RingSize(p) - 1];
    SparseListIs(p);
    OnesRun(xs);
    assert xs[..|xs|-1] == SparseList(p);
    var book := Run(Mean, Ones(xs));
    Multiples(p, 1);
    TenExactly(book.vals, p);
    TenExactly(Newest(book.vals, book.head, n), p);
    TenExactly(Newest(book.vals, book.head, n - 1), p);
  }

  // --- the scorer -----------------------------------------------------------------------------------

  /** A robust scale that may be reused for a while. */
  class Cache {
    var madScale: real
    var at: int
    var seasonal: bool
    var valid: bool

    constructor ()
      ensures Remembered() == None
    {
      madScale, at, seasonal, valid := 0.0, 0, false, false;
    }

    function Remembered(): Option<Scale>
      reads this
    {
      if valid then Some(Scale(madScale, at, seasonal)) else None
    }
  }

  /** Sorts xs and takes the middle. */
  method SortedMedian(xs: seq<real>) returns (sorted: seq<real>, m: real)
    requires xs != []
    ensures Sorted(sorted) && multiset(sorted) == multiset(xs) && m == Median(xs)
  {
    sorted := Sort(xs);
    SortProps(xs);
    var n := |sorted|;
    m := if n % 2 == 1 then sorted[n/2] else (sorted[n/2-1] + sorted[n/2]) / 2.0;
  }

  /** The ring shows its points. */
  lemma ShowsPoint(s: Series, b: int)
    requires s.Valid()
    ensures s.At(b) == Point(s.Points(), b)
  {
  }

  method Expected(s: Series, b: int, p: Params) returns (e: Option<real>)
    requires s.Valid()
    ensures e == ExpectedAt(s.Points(), b, p)
  {
    var hist, k := [], 1;
    while k <= p.seasons
      invariant 1 <= k <= Seasons(p) + 1 && hist == History(s.Points(), b, p.season, k - 1)
    {
      ShowsPoint(s, b - k * p.season);
      var v := s.At(b - k * p.season);
      if v.Some? {
        hist := hist + [v.value];
      }
      k := k + 1;
    }
    if hist == [] {
      return None;
    }
    var _, m := SortedMedian(hist);
    return Some(m);
  }

  /** The known values of [from, end). */
  method Recent(s: Series, from: int, end: int) returns (rec: seq<real>)
    requires s.Valid()
    ensures rec == Window(s.Points(), from, end)
  {
    rec := [];
    var b := from;
    while b < end
      invariant from <= end ==> from <= b <= end
      invariant from > end ==> b == from
      invariant rec == Window(s.Points(), from, b)
    {
      ShowsPoint(s, b);
      var v := s.At(b);
      if v.Some? {
        rec := rec + [v.value];
      }
      b := b + 1;
    }
  }

  /** 1.4826 times the median absolute deviation of the residuals over the last season. */
  method ResidualScale(s: Series, now: int, p: Params, seasonal: bool, exp: real) returns (m: Option<real>)
    requires s.Valid()
    ensures m == RobustScale(s.Points(), now, p, Base(exp, seasonal))
  {
    hide History, Mad, Series.Valid, Series.Points, Series.At, ExpectedAt;
    var res, b := [], now - p.season;
    while b < now
      invariant p.season >= 0 ==> now - p.season <= b <= now
      invariant p.season < 0 ==> b == now - p.season
      invariant res == Residuals(s.Points(), now - p.season, b, p, seasonal, exp)
    {
      ShowsPoint(s, b);
      var v := s.At(b);
      if v.Some? {
        var e := Some(exp);
        if seasonal {
          e := Expected(s, b, p);
        }
        if e.Some? {
          res := res + [v.value - e.value];
        }
      }
      b := b + 1;
    }
    if |res| < 10 {
      return None;
    }
    var mad := Deviation(res);
    return Some(1.4826 * mad);
  }

  /** The median absolute deviation, the list being sorted in place before its deviations are taken. */
  method Deviation(xs: seq<real>) returns (mad: real)
    requires xs != []
    ensures mad == Mad(xs)
  {
    var res, med := SortedMedian(xs);
    ghost var sorted := res;
    for i := 0 to |res|
      invariant |res| == |sorted|
      invariant forall j :: 0 <= j < i ==> res[j] == Abs(sorted[j] - med)
      invariant forall j :: i <= j < |res| ==> res[j] == sorted[j]
    {
      res := res[i := Abs(res[i] - med)];
    }
    assert res == Distances(sorted, med);
    DistancesPermuted(sorted, xs, med);
    MedianPermuted(Distances(xs, med), res);
    res, mad := SortedMedian(res);
  }

  /** The value to compare with: the seasonal median or, in cold start, the recent one. */
  method ExpectedNow(s: Series, now: int, p: Params) returns (base: Option<Base>)
    requires s.Valid()
    ensures base == Baseline(s.Points(), now, p)
  {
    var e := Expected(s, now, p);
    if e.Some? {
      return Some(Base(e.value, true));
    }
    var rec := Recent(s, now - p.lookback, now);
    if |rec| < 3 {
      return None;
    }
    var _, m := SortedMedian(rec);
    return Some(Base(m, false));
  }

  /** The result for one scale. */
  function WithFloors(obs: real, base: Base, madScale: real, p: Params, sqrt: real -> real): (r: Result)
    ensures r.expected == base.expected && r.seasonal == base.seasonal
  {
    var floored := Max(Max(madScale, p.absFloor), p.relFloor * Abs(base.expected));
    var scale := if p.poisson then Max(floored, Root(sqrt, Max(base.expected, 1.0))) else floored;
    Scored(obs, base, scale, p)
  }

  lemma WithFloorsIs(obs: real, base: Base, madScale: real, p: Params, sqrt: real -> real)
    ensures Widened(Some(Scored(obs, base, Floored(madScale, base.expected, p), p)), p, sqrt)
         == Some(WithFloors(obs, base, madScale, p, sqrt))
  {
    hide HalfBand, Quotient;
    assert base == Base(base.expected, base.seasonal);
  }

  /** Without a value to score, anything to compare with or a scale, nothing is scored or remembered. */
  lemma ScoreWithout(points: map<int, real>, now: int, p: Params, scale: Option<Scale>, sqrt: real -> real)
    ensures now !in points || Baseline(points, now, p).None? ==> ScoreWith(points, now, p, scale, sqrt) == (None, scale)
    ensures now in points && Baseline(points, now, p).Some? ==>
      var base := Baseline(points, now, p).value;
      !Fits(scale, now, p, base.seasonal) && RobustScale(points, now, p, base).None? ==>
        ScoreWith(points, now, p, scale, sqrt) == (None, scale)
  {
    hide Baseline, RobustScale, Fits, Widened, Scored, Floored;
  }

  lemma ScoreWithScale(points: map<int, real>, now: int, p: Params, scale: Option<Scale>, mad: real, sqrt: real -> real)
    requires now in points && Baseline(points, now, p).Some?
    requires var base := Baseline(points, now, p).value;
      if Fits(scale, now, p, base.seasonal) then scale.Some? && mad == scale.value.mad
      else RobustScale(points, now, p, base) == Some(mad)
    ensures var base := Baseline(points, now, p).value;
      ScoreWith(points, now, p, scale, sqrt)
      == (Some(WithFloors(points[now], base, mad, p, sqrt)),
          if Fits(scale, now, p, base.seasonal) then scale else Some(Scale(mad, now, base.seasonal)))
  {
    hide Baseline, RobustScale, Fits, Widened, Scored, Floored, WithFloors;
    WithFloorsIs(points[now], Baseline(points, now, p).value, mad, p, sqrt);
  }

  /** Scores bucket now from what the ring holds, with the scale that the cache remembers or will remember. */
  method Score(s: Series, now: int, p: Params, cache: Cache?, sqrt: real -> real) returns (r: Option<Result>)
    requires s.Valid()
    modifies if cache == null then {} else {cache}
    ensures r == ScoreWith(s.Points(), now, p, old(if cache == null then None else cache.Remembered()), sqrt).0
    ensures cache != null ==> cache.Remembered() == ScoreWith(s.Points(), now, p, old(cache.Remembered()), sqrt).1
  {
    hide Baseline, RobustScale, WithFloors, ScoreWith, Series.Valid;
    ghost var scale := if cache == null then None else cache.Remembered();
    ShowsPoint(s, now);
    ScoreWithout(s.Points(), now, p, scale, sqrt);
    var obs := s.At(now);
    if obs.None? {
      return None;
    }
    var base := ExpectedNow(s, now, p);
    if base.None? {
      return None;
    }
    var exp, seasonal := base.value.expected, base.value.seasonal;
    var madScale;
    if cache != null && Fits(cache.Remembered(), now, p, seasonal) {
      madScale := cache.madScale;
    } else {
      var mad := ResidualScale(s, now, p, seasonal, exp);
      assert base.value == Base(exp, seasonal);
      if mad.None? {
        return None;
      }
      madScale := mad.value;
      if cache != null {
        cache.madScale, cache.at, cache.seasonal, cache.valid := madScale, now, seasonal, true;
      }
    }
    ScoreWithScale(s.Points(), now, p, scale, madScale, sqrt);
    r := Some(WithFloors(obs.value, base.value, madScale, p, sqrt));
  }

  // --- the ring is large enough ---------------------------------------------------------------------

  /** A ring of RingSize slots holds every bucket that scoring its newest closed bucket reads. */
  lemma RingHoldsReads(s: Series, p: Params)
    requires s.Valid() && s.n >= RingSize(p)
    ensures Agree(s.Points(), s.book.vals, s.head - 1 - (p.seasons + 1) * p.season, s.head - 1)
  {
    var depth := (p.seasons + 1) * p.season;
    forall t | s.head - 1 - depth <= t <= s.head - 1 ensures Point(s.Points(), t) == Point(s.book.vals, t) {
    }
  }

  /** After any run of samples and closings, what the scorer makes of the newest closed bucket of the
      ring is what the reference makes of it on the unbounded map of all buckets. */
  method ScoreRun(agg: Agg, events: seq<Event>, p: Params, sqrt: real -> real) returns (r: Option<Result>)
    requires RingSize(p) > 0 && p.lookback <= (p.seasons + 1) * p.season && !p.poisson
    ensures r == ScoreSeries(Run(agg, events).vals, Run(agg, events).head - 1, p)
  {
    hide ScoreSeries;
    var s := Replay(agg, RingSize(p), events);
    r := ScoreNewest(s, p, sqrt);
  }

  method ScoreNewest(s: Series, p: Params, sqrt: real -> real) returns (r: Option<Result>)
    requires s.Valid() && s.n == RingSize(p)
    requires p.lookback <= (p.seasons + 1) * p.season
    ensures r == Widened(ScoreSeries(s.book.vals, s.head - 1, p), p, sqrt)
  {
    hide Baseline, RobustScale, Widened, Agree, Scored;
    r := Score(s, s.head - 1, p, null, sqrt);
    ScoreFresh(s.Points(), s.head - 1, p, None, sqrt);
    RingHoldsReads(s, p);
    ScoreLocal(s.Points(), s.book.vals, s.head - 1, p);
  }
}
