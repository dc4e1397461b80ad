/** One metric series from its samples to its findings: over any samples, evaluations and restarts its outcomes
    and its newest data are such that garbage collection keeps it while it is firing. */
module SeriesRun {
  import opened Numbers
  import opened Options
  import opened Findings
  import opened Recency
  import Buckets
  import Rings
  import Scorer
  import ScoreLaws
  import Evaluation

  /** The settings of a series, its ring of n buckets, and the square root. */
  datatype Setting = Setting(dir: int, minVol: real, params: Scorer.Params, threshold: real, need: int, n: nat, sqrt: real -> real)

  /** The series in memory: its buckets, what its evaluations left, and the bucket that was open at the last
      restart. trail is only for the proof. */
  datatype State = State(book: Buckets.Book, info: Info, trail: Trail, memory: Evaluation.Memory, reopened: int)

  /** A sample arrives; the buckets before open are closed and those that are new evaluated; the server restarts,
      which rebuilds the flag from the saved finding and forgets counters and scale. */
  datatype Step =
    | Deliver(b: int, v: real)
    | Evaluate(open: int)
    | Restart

  function New(): State {
    State(Buckets.Empty(Buckets.Mean), Recency.New(), Trail(NO_EVAL, 0), Evaluation.Memory(None, None), Buckets.NO_HEAD)
  }

  /** What an evaluation of this ring reads. What only absence tracking reads is left blank. */
  function ViewOf(c: Setting, k: Buckets.Book): Evaluation.View {
    Evaluation.View(Rings.Newest(k.vals, k.head, c.n), 0, false, c.dir, c.minVol, c.params, c.threshold)
  }

  /** The outcomes of an evaluation that closes the buckets before open. */
  function Came(c: Setting, s: State, open: int): seq<Outcome> {
    Evaluation.Outcomes(ViewOf(c, Buckets.Advance(s.book, open)), Findings.Start(s.info.lastEval, open - 1),
                        NewBuckets(s.info.lastEval, open - 1), s.memory, c.sqrt)
  }

  function Left(c: Setting, s: State, open: int): Evaluation.Memory {
    Evaluation.MemoryAfter(ViewOf(c, Buckets.Advance(s.book, open)), Findings.Start(s.info.lastEval, open - 1),
                           NewBuckets(s.info.lastEval, open - 1), s.memory, c.sqrt)
  }

  /** What a restart takes for the newest data. */
  function Newest(c: Setting, k: Buckets.Book): int {
    if k.head == Buckets.NO_HEAD then 0 else Evaluation.NewestAt(k.vals, k.head - 1, k.head - c.n)
  }

  function Happens(c: Setting, s: State, x: Step): Happening {
    match x
    case Deliver(b, _) => Delivered(b)
    case Evaluate(open) => Evaluated(Came(c, s, open), open - 1)
    case Restart => Restarted(Newest(c, s.book))
  }

  function BookAfter(k: Buckets.Book, x: Step): Buckets.Book {
    match x
    case Deliver(b, v) => Buckets.Add(k, b, v)
    case Evaluate(open) => Buckets.Advance(k, open)
    case Restart => k
  }

  function Next(c: Setting, s: State, x: Step): State {
    var h := Happens(c, s, x);
    State(BookAfter(s.book, x), After(s.info, h, c.need), TrailAfter(s.info, s.trail, h),
          match x
          case Deliver(_, _) => s.memory
          case Evaluate(open) => Left(c, s, open)
          case Restart => Evaluation.Memory(None, None),
          if x.Restart? then s.book.head else s.reopened)
  }

  function Run(c: Setting, steps: seq<Step>): State {
    if steps == [] then New() else Next(c, Run(c, steps[..|steps|-1]), steps[|steps|-1])
  }

  /** What the steps are to findings. */
  function Story(c: Setting, steps: seq<Step>): seq<Happening> {
    if steps == [] then []
    else Story(c, steps[..|steps|-1]) + [Happens(c, Run(c, steps[..|steps|-1]), steps[|steps|-1])]
  }

  // --- values and the newest data -------------------------------------------------------------------

  /** Closed buckets are before the open one, and no value is newer than the newest data on record, but for
      the bucket that was open at the last restart. */
  ghost predicate Backed(k: Buckets.Book, lastData: int, reopened: int) {
    && k.agg == Buckets.Mean && reopened <= k.head
    && (forall b {:trigger b in k.vals} :: b in k.vals ==> b < k.head && (b <= lastData || b == reopened))
    && (k.head != Buckets.NO_HEAD && k.cnt > 0 ==> k.head <= lastData || k.head == reopened)
  }

  lemma AdvanceBacks(k: Buckets.Book, lastData: int, reopened: int, b: int)
    requires Backed(k, lastData, reopened)
    ensures Backed(Buckets.Advance(k, b), lastData, reopened) && k.vals.Keys <= Buckets.Advance(k, b).vals.Keys
  {
    forall x | x in Buckets.Advance(k, b).vals ensures x in k.vals || (x == k.head && k.cnt > 0 && k.head != Buckets.NO_HEAD) {
    }
  }

  /** Samples and closings keep that, the newest data on record being that of the newest sample, and no bucket
      loses its value. */
  lemma StaysBacked(k: Buckets.Book, lastData: int, reopened: int, x: Step)
    requires Backed(k, lastData, reopened) && !x.Restart?
    ensures Backed(BookAfter(k, x), if x.Deliver? then Max(lastData, x.b) else lastData, reopened)
    ensures k.vals.Keys <= BookAfter(k, x).vals.Keys
  {
    AdvanceBacks(k, lastData, reopened, if x.Deliver? then x.b else x.open);
  }

  /** A restart finds the newest closed value, so no value is newer than that. */
  lemma RestartBacks(c: Setting, k: Buckets.Book, lastData: int, reopened: int)
    requires Backed(k, lastData, reopened)
    ensures Backed(k, Newest(c, k), k.head) && forall b :: b in k.vals ==> b <= Newest(c, k)
  {
  }

  /** A remembered scale is from a bucket before the next one to evaluate, backed like a value, and well within
      the ring as it was at the restart, since ten residuals were found there. */
  predicate ScaleBacked(scale: Option<Scorer.Scale>, before: int, lastData: int, reopened: int, n: nat) {
    scale.Some? ==>
      && n >= 12 && reopened - n + 11 <= scale.value.at < before
      && (scale.value.at <= lastData || scale.value.at == reopened)
  }

  /** The ring holds n buckets before the open one, which is not before the one open at the restart. */
  predicate InRing(points: map<int, real>, head: int, n: nat, lastData: int, reopened: int) {
    reopened <= head && forall x {:trigger x in points} :: x in points ==> head - n < x < head && (x <= lastData || x == reopened)
  }

  /** A score needs a value in the last season, or a scale from a bucket that had one: either way the bucket is
      no more than the ring past the newest data on record. */
  lemma ScoredIsBacked(v: Evaluation.View, b: int, m: Evaluation.Memory, sqrt: real -> real, head: int, n: nat, lastData: int,
                       reopened: int)
    requires InRing(v.points, head, n, lastData, reopened) && ScaleBacked(m.scale, b, lastData, reopened, n)
    ensures Evaluation.ResultAt(v, b, m, sqrt).Some? ==> b in v.points && b <= lastData + n - 3
    ensures ScaleBacked(Evaluation.Remember(v, b, m, sqrt).scale, b + 1, lastData, reopened, n)
  {
    hide Scorer.ScoreWith, Scorer.Baseline, Scorer.RobustScale;
    var t := Scorer.ScoredRests(v.points, b, v.params, m.scale, sqrt, head - n + 1);
    var (r, after) := Scorer.ScoreWith(v.points, b, v.params, m.scale, sqrt);
    if r.Some? && !Scorer.Fits(m.scale, b, v.params, Scorer.Baseline(v.points, b, v.params).value.seasonal) {
      assert after.value.at == b && t >= head - n + 10;
    }
  }

  /** No scored bucket is without a value, or past the bound. */
  predicate Within(points: map<int, real>, h: seq<Outcome>, from: int, bound: int) {
    forall i {:trigger h[i]} :: 0 <= i < |h| && h[i].Scored? ==> from + i in points && from + i <= bound
  }

  lemma OutcomesOneMore(v: Evaluation.View, from: int, n: nat, m: Evaluation.Memory, sqrt: real -> real, bound: int)
    requires n > 0 && Within(v.points, Evaluation.Outcomes(v, from, n - 1, m, sqrt), from, bound)
    requires Evaluation.ResultAt(v, from + n - 1, Evaluation.MemoryAfter(v, from, n - 1, m, sqrt), sqrt).Some? ==>
      from + n - 1 in v.points && from + n - 1 <= bound
    ensures Within(v.points, Evaluation.Outcomes(v, from, n, m, sqrt), from, bound)
    ensures Evaluation.MemoryAfter(v, from, n, m, sqrt)
         == Evaluation.Remember(v, from + n - 1, Evaluation.MemoryAfter(v, from, n - 1, m, sqrt), sqrt)
  {
    hide Evaluation.ResultAt, Evaluation.Remember, Evaluation.Anomalous;
  }

  lemma {:induction false} ScoresAreBacked(v: Evaluation.View, from: int, k: nat, m: Evaluation.Memory, sqrt: real -> real,
                                           head: int, n: nat, lastData: int, reopened: int)
    requires InRing(v.points, head, n, lastData, reopened) && ScaleBacked(m.scale, from, lastData, reopened, n)
    ensures Within(v.points, Evaluation.Outcomes(v, from, k, m, sqrt), from, lastData + n - 3)
    ensures ScaleBacked(Evaluation.MemoryAfter(v, from, k, m, sqrt).scale, from + k, lastData, reopened, n)
  {
    hide ScaleBacked, InRing, Evaluation.ResultAt, Evaluation.Remember;
    if k > 0 {
      ScoresAreBacked(v, from, k - 1, m, sqrt, head, n, lastData, reopened);
      ScoredIsBacked(v, from + k - 1, Evaluation.MemoryAfter(v, from, k - 1, m, sqrt), sqrt, head, n, lastData, reopened);
      OutcomesOneMore(v, from, k, m, sqrt, lastData + n - 3);
    }
  }

  // --- over whole runs ------------------------------------------------------------------------------

  /** A firing series was last scored in a bucket that has a value. */
  ghost predicate Anchored(s: State) {
    s.info.band.firing ==> s.trail.anchor in s.book.vals && s.info.band.missing < 3
  }

  ghost predicate Inv(c: Setting, s: State) {
    && Backed(s.book, s.info.lastData, s.reopened) && Anchored(s)
    && ScaleBacked(s.memory.scale, s.info.lastEval + 1, s.info.lastData, s.reopened, c.n)
  }

  /** The outcomes of an evaluation are truthful, with a reused scale as without: no scored bucket is a ring past
      the newest data on record. What it remembers is backed again. */
  lemma EvaluationIsTruthful(c: Setting, s: State, open: int)
    requires Inv(c, s)
    ensures Truthful(s.info, Came(c, s, open), open - 1, c.n)
    ensures ScaleBacked(Left(c, s, open).scale, Max(s.info.lastEval, open - 1) + 1, s.info.lastData, s.reopened, c.n)
    ensures Within(ViewOf(c, Buckets.Advance(s.book, open)).points, Came(c, s, open), Findings.Start(s.info.lastEval, open - 1),
                   s.info.lastData + c.n - 3)
  {
    hide Evaluation.Outcomes, Evaluation.MemoryAfter, Buckets.Advance;
    var k := Buckets.Advance(s.book, open);
    var from, m := Findings.Start(s.info.lastEval, open - 1), NewBuckets(s.info.lastEval, open - 1);
    AdvanceBacks(s.book, s.info.lastData, s.reopened, open);
    ScoresAreBacked(ViewOf(c, k), from, m, s.memory, c.sqrt, k.head, c.n, s.info.lastData, s.reopened);
  }

  lemma EvaluationAnchors(c: Setting, s: State, open: int)
    requires Inv(c, s)
    ensures Anchored(Next(c, s, Evaluate(open)))
  {
    hide Came, Left, Findings.Run, Buckets.Advance, ScaleBacked;
    AdvanceBacks(s.book, s.info.lastData, s.reopened, open);
    EvaluationIsTruthful(c, s, open);
    Counted(s.info.band, Came(c, s, open), c.need);
  }

  lemma StepKeepsInv(c: Setting, s: State, x: Step)
    requires Inv(c, s)
    ensures Inv(c, Next(c, s, x)) && Plausible(s.info, s.trail, Happens(c, s, x), c.n)
  {
    hide Came, Left, Newest, Buckets.Advance, Buckets.Add, Findings.Run;
    match x
    case Deliver(_, _) => StaysBacked(s.book, s.info.lastData, s.reopened, x);
    case Evaluate(open) =>
      StaysBacked(s.book, s.info.lastData, s.reopened, x);
      EvaluationIsTruthful(c, s, open);
      EvaluationAnchors(c, s, open);
    case Restart => RestartBacks(c, s.book, s.info.lastData, s.reopened);
  }

  /** Whatever samples, evaluations and restarts a series sees, to its findings they are a plausible life, and
      its state is that of this life. */
  lemma {:induction false} RunIsLife(c: Setting, steps: seq<Step>)
    ensures var s := Run(c, steps);
      Inv(c, s) && PlausibleLife(Story(c, steps), c.need, c.n) && Life(Story(c, steps), c.need) == (s.info, s.trail)
  {
    hide Inv, Plausible, Happens, After, TrailAfter;
    if steps == [] {
      StartsAlive(c);
    } else {
      var before, x := steps[..|steps|-1], steps[|steps|-1];
      RunIsLife(c, before);
      StepKeepsInv(c, Run(c, before), x);
      OneMoreHappening(Story(c, before), Happens(c, Run(c, before), x), c.need, c.n);
    }
  }

  lemma StartsAlive(c: Setting)
    ensures Inv(c, New()) && PlausibleLife([], c.need, c.n) && Life([], c.need) == (New().info, New().trail)
  {
  }

  /** So whatever samples, evaluations and restarts a series saw, an evaluation does not leave it firing with
      data more than a ring old, so long as it was scored no more than (n - 3) / 2 restarts ago. */
  lemma RunKeepsFiring(c: Setting, steps: seq<Step>, open: int)
    requires 2 * Run(c, steps).trail.restarts + 3 <= c.n
    ensures var i := Next(c, Run(c, steps), Evaluate(open)).info; i.band.firing ==> !DropsMetric(i, open, c.n)
  {
    hide Run, Story, Life, PlausibleLife, DropsMetric, Evaluate1, Came, Left, Inv;
    RunIsLife(c, steps);
    EvaluationIsTruthful(c, Run(c, steps), open);
    FiringIsKept(Story(c, steps), Came(c, Run(c, steps), open), open - 1, c.need, c.n);
  }

  // --- what outcomes mean over runs -----------------------------------------------------------------

  lemma {:induction false} RunScale(c: Setting, steps: seq<Step>)
    ensures ScoreLaws.NonNegative(Run(c, steps).memory.scale)
  {
    hide ViewOf, Buckets.Advance, Buckets.Add, Happens, After, TrailAfter;
    if steps != [] {
      var before, x := steps[..|steps|-1], steps[|steps|-1];
      var s := Run(c, before);
      RunScale(c, before);
      if x.Evaluate? {
        Evaluation.MemoryNonNegative(ViewOf(c, Buckets.Advance(s.book, x.open)), Findings.Start(s.info.lastEval, x.open - 1),
                                     NewBuckets(s.info.lastEval, x.open - 1), s.memory, c.sqrt);
      }
    }
  }

  /** What bucket i of the next evaluation comes to after any run: refused exactly if it gets no score, and anomalous
      exactly if the value of its bucket is out of the band. */
  lemma RunOutcomes(c: Setting, steps: seq<Step>, open: int, i: nat)
    requires i < |Came(c, Run(c, steps), open)|
    ensures var s := Run(c, steps);
      var v, from := ViewOf(c, Buckets.Advance(s.book, open)), Findings.Start(s.info.lastEval, open - 1);
      var r, o := Evaluation.ResultAt(v, from + i, Evaluation.MemoryAfter(v, from, i, s.memory, c.sqrt), c.sqrt), Came(c, s, open)[i];
      && (o == Refused <==> r.None?)
      && (r.Some? ==> r.value.scale >= 0.0 && from + i in v.points
                      && (o == Scored(true) <==> Evaluation.OutOfBand(v, v.points[from+i], r.value.expected, r.value.scale)))
  {
    hide Run, Evaluation.Outcomes, Evaluation.ResultAt, Evaluation.MemoryAfter, Evaluation.OutOfBand, ScoreLaws.NonNegative;
    var s := Run(c, steps);
    RunScale(c, steps);
    Evaluation.OutcomesMean(ViewOf(c, Buckets.Advance(s.book, open)), Findings.Start(s.info.lastEval, open - 1),
                            NewBuckets(s.info.lastEval, open - 1), s.memory, c.sqrt, i);
  }

  // --- where a remembered scale comes from ----------------------------------------------------------

  /** Step j was an evaluation in which this was the robust scale for its bucket. */
  predicate ScaledIn(c: Setting, steps: seq<Step>, j: nat, scale: Scorer.Scale) {
    j < |steps| && steps[j].Evaluate? && Scorer.FreshScale(ViewOf(c, Run(c, steps[..j+1]).book).points, scale.at, c.params, scale)
  }

  /** Over any run the remembered scale is the robust scale for a bucket on the values of the evaluation that
      scored it. */
  lemma {:induction false} ScaleComesFrom(c: Setting, steps: seq<Step>) returns (j: nat)
    ensures var scale := Run(c, steps).memory.scale; scale.Some? ==> ScaledIn(c, steps, j, scale.value)
  {
    hide Scorer.FreshScale, ViewOf, Buckets.Advance, Buckets.Add, Came, Happens, After, TrailAfter;
    j := 0;
    if steps != [] {
      var before, x := steps[..|steps|-1], steps[|steps|-1];
      var s := Run(c, before);
      j := ScaleComesFrom(c, before);
      assert j < |before| ==> before[..j+1] == steps[..j+1];
      if x.Evaluate? {
        var from, n := Findings.Start(s.info.lastEval, x.open - 1), NewBuckets(s.info.lastEval, x.open - 1);
        Evaluation.MemoryIs(ViewOf(c, Buckets.Advance(s.book, x.open)), from, n, s.memory, c.sqrt);
        ViewIs(c, Buckets.Advance(s.book, x.open));
        assert steps[..|steps|] == steps;
        if Left(c, s, x.open).scale != s.memory.scale {
          j := |before|;
        }
      }
    }
  }

  lemma ViewIs(c: Setting, k: Buckets.Book)
    ensures ViewOf(c, k).params == c.params
  {
  }

  /** What only absence tracking reads does not matter to outcomes. */
  lemma {:induction false} BlankDoesNotMatter(v: Evaluation.View, undefData: int, written: bool, from: int, n: nat,
                                              m: Evaluation.Memory, sqrt: real -> real)
    ensures var w := v.(undefData := undefData, written := written);
      && Evaluation.Outcomes(w, from, n, m, sqrt) == Evaluation.Outcomes(v, from, n, m, sqrt)
      && Evaluation.MemoryAfter(w, from, n, m, sqrt) == Evaluation.MemoryAfter(v, from, n, m, sqrt)
  {
    hide Scorer.ScoreWith, Evaluation.Anomalous;
    if n > 0 {
      BlankDoesNotMatter(v, undefData, written, from, n - 1, m, sqrt);
    }
  }
}
