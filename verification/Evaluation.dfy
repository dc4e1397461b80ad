/** Evaluating one series: every new complete bucket is tracked for absence, scored, and run through
    the life of its findings. */
module Evaluation {
  import opened Numbers
  import opened Options
  import Buckets
  import opened Rings
  import Scorer
  import ScoreLaws
  import opened Findings
  import opened Absence

  datatype Config = Config(threshold: real, forBuckets: int, absentBuckets: int, absentTTL: int)

  /** One event of a series; those of its absence finding are told apart by their key. */
  datatype Event = Event(absence: bool, kind: Kind, b: int, r: Option<Scorer.Result>)

  predicate AtLeast(x: Scorer.Ratio, t: real) {
    match x
    case Finite(v) => v >= t
    case Infinite(positive) => positive
    case Undefined => false
  }

  predicate AtMost(x: Scorer.Ratio, t: real) {
    match x
    case Finite(v) => v <= t
    case Infinite(positive) => !positive
    case Undefined => false
  }

  /** Does this score count for a series with this direction and minimum volume? */
  predicate Anomalous(r: Scorer.Result, dir: int, minVol: real, threshold: real) {
    && (minVol > 0.0 ==> r.observed >= minVol || r.expected >= minVol)
    && (if dir == 1 then AtLeast(r.score, threshold)
        else if dir == -1 then AtMost(r.score, -threshold)
        else AtLeast(r.score, threshold) || AtMost(r.score, -threshold))
  }

  /** The kinds of the band events of a list, or of its absence events, in order. */
  function Kinds(events: seq<Event>, absence: bool): seq<Kind> {
    if events == [] then []
    else
      var e := events[|events|-1];
      Kinds(events[..|events|-1], absence) + if e.absence == absence then [e.kind] else []
  }

  function KindOf(e: Option<Event>): Option<Kind> {
    if e.Some? then Some(e.value.kind) else None
  }

  lemma KindsOfOne(e: Option<Event>, absence: bool)
    requires e.Some? ==> e.value.absence
    ensures Kinds(Known(e), absence) == if absence then Known(KindOf(e)) else []
  {
    if e.Some? {
      assert Known(e)[..0] == [];
    }
  }

  lemma KindsOfPair(e0: Option<Event>, e1: Option<Event>)
    requires (e0.Some? ==> e0.value.absence) && (e1.Some? ==> !e1.value.absence)
    ensures Kinds(Known(e0) + Known(e1), true) == Known(KindOf(e0))
    ensures Kinds(Known(e0) + Known(e1), false) == Known(KindOf(e1))
  {
    KindsOfOne(e0, true);
    KindsOfOne(e0, false);
    if e1.Some? {
      assert (Known(e0) + Known(e1))[..|Known(e0)|] == Known(e0);
    } else {
      assert Known(e0) + Known(e1) == Known(e0);
    }
  }

  // --- what an evaluation computes ----------------------------------------------------------------

  /** What evaluating a series reads of it: known values and the settings. */
  datatype View = View(points: map<int, real>, undefData: int, written: bool, dir: int, minVol: real, params: Scorer.Params,
                       threshold: real)

  /** What scoring one bucket leaves for the next: the reusable scale and the last result. */
  datatype Memory = Memory(scale: Option<Scorer.Scale>, last: Option<Scorer.Result>)

  /** The score of bucket b. */
  function ResultAt(v: View, b: int, m: Memory, sqrt: real -> real): Option<Scorer.Result> {
    Scorer.ScoreWith(v.points, b, v.params, m.scale, sqrt).0
  }

  function Remember(v: View, b: int, m: Memory, sqrt: real -> real): Memory {
    var (r, scale) := Scorer.ScoreWith(v.points, b, v.params, m.scale, sqrt);
    Memory(scale, if r.Some? then r else m.last)
  }

  function OutcomeOf(v: View, r: Option<Scorer.Result>): Outcome {
    if r.None? then Refused else Scored(Anomalous(r.value, v.dir, v.minVol, v.threshold))
  }

  /** What absence tracking sees of bucket b, before it is scored. */
  function LookOf(v: View, b: int, m: Memory, seen: int -> bool): Look {
    Look(b, b in v.points || v.undefData >= b, Asked(seen, b),
         v.written && m.last.Some? && m.last.value.expected > v.params.absFloor)
  }

  function Asked(seen: int -> bool, b: int): bool {
    seen(b)
  }

  /** What is remembered after n buckets from from on. */
  function MemoryAfter(v: View, from: int, n: nat, m: Memory, sqrt: real -> real): Memory {
    if n == 0 then m else Remember(v, from + n - 1, MemoryAfter(v, from, n - 1, m, sqrt), sqrt)
  }

  /** What those n buckets come to. */
  function Outcomes(v: View, from: int, n: nat, m: Memory, sqrt: real -> real): (h: seq<Outcome>)
    ensures |h| == n
  {
    if n == 0 then []
    else Outcomes(v, from, n - 1, m, sqrt) + [OutcomeOf(v, ResultAt(v, from + n - 1, MemoryAfter(v, from, n - 1, m, sqrt), sqrt))]
  }

  function Looks(v: View, from: int, n: nat, m: Memory, seen: int -> bool, sqrt: real -> real): (h: seq<Look>)
    ensures |h| == n
  {
    if n == 0 then []
    else Looks(v, from, n - 1, m, seen, sqrt) + [LookOf(v, from + n - 1, MemoryAfter(v, from, n - 1, m, sqrt), seen)]
  }

  lemma {:induction false} OutcomesAt(v: View, from: int, n: nat, m: Memory, sqrt: real -> real, i: nat)
    requires i < n
    ensures Outcomes(v, from, n, m, sqrt)[i] == OutcomeOf(v, ResultAt(v, from + i, MemoryAfter(v, from, i, m, sqrt), sqrt))
  {
    hide OutcomeOf, ResultAt, MemoryAfter;
    if i < n - 1 {
      OutcomesAt(v, from, n - 1, m, sqrt, i);
    }
  }

  // --- when an outcome is anomalous -----------------------------------------------------------------

  /** Is a value at least threshold scales above what was expected, or as far below, in a direction that counts?
      With a minimum volume it does not matter unless one of the two reaches that. */
  predicate OutOfBand(v: View, observed: real, expected: real, scale: real) {
    && !(v.minVol > 0.0 && observed < v.minVol && expected < v.minVol)
    && (scale == 0.0 ==> observed != expected)
    && ((v.dir != -1 && observed >= expected + v.threshold * scale)
        || (v.dir != 1 && observed <= expected - v.threshold * scale))
  }

  lemma ScoredOutOfBand(v: View, r: Scorer.Result, p: Scorer.Params)
    requires r.scale >= 0.0 && ScoreLaws.BandOf(r, p.threshold)
    ensures Anomalous(r, v.dir, v.minVol, v.threshold) <==> OutOfBand(v, r.observed, r.expected, r.scale)
  {
    if r.scale > 0.0 {
      var s, t := r.score.v, v.threshold * r.scale;
      ScoreLaws.ScaledBoth(s, v.threshold, r.scale, r.observed - r.expected);
      assert r.score == Scorer.Finite(s);
      assert (s >= v.threshold <==> r.observed >= r.expected + t) && (s <= -v.threshold <==> r.observed <= r.expected - t);
    } else {
      assert v.threshold * r.scale == 0.0;
    }
  }

  lemma {:induction false} MemoryNonNegative(v: View, from: int, n: nat, m: Memory, sqrt: real -> real)
    requires ScoreLaws.NonNegative(m.scale)
    ensures ScoreLaws.NonNegative(MemoryAfter(v, from, n, m, sqrt).scale)
  {
    hide Scorer.ScoreWith, ScoreLaws.NonNegative;
    if n > 0 {
      MemoryNonNegative(v, from, n - 1, m, sqrt);
      ScoreLaws.ScaleNonNegative(v.points, from + n - 1, v.params, MemoryAfter(v, from, n - 1, m, sqrt).scale, sqrt);
    }
  }

  /** A bucket is refused exactly when it gets no score, and anomalous exactly when its value is out of the band
      around the value expected. */
  lemma OutcomesMean(v: View, from: int, n: nat, m: Memory, sqrt: real -> real, i: nat)
    requires i < n && ScoreLaws.NonNegative(m.scale)
    ensures var o, r := Outcomes(v, from, n, m, sqrt)[i], ResultAt(v, from + i, MemoryAfter(v, from, i, m, sqrt), sqrt);
      && (o == Refused <==> r.None?)
      && (r.Some? ==> r.value.scale >= 0.0 && from + i in v.points
                      && (o == Scored(true) <==> OutOfBand(v, v.points[from+i], r.value.expected, r.value.scale)))
  {
    hide Outcomes, MemoryAfter, Scorer.ScoreWith, Anomalous, OutOfBand, ScoreLaws.BandOf, ScoreLaws.NonNegative;
    OutcomesAt(v, from, n, m, sqrt, i);
    MemoryNonNegative(v, from, i, m, sqrt);
    var memory := MemoryAfter(v, from, i, m, sqrt);
    var r := ResultAt(v, from + i, memory, sqrt);
    if r.Some? {
      ScoreLaws.ScoreMeans(v.points, from + i, v.params, memory.scale, sqrt);
      ScoreLaws.ScaleNonNegative(v.points, from + i, v.params, memory.scale, sqrt);
      ScoredOutOfBand(v, r.value, v.params);
    }
  }

  // --- which scale a bucket is scored with ------------------------------------------------------------

  /** The scale is the robust scale for some bucket from from on, before end. */
  predicate FreshIn(v: View, from: int, end: int, scale: Option<Scorer.Scale>) {
    scale.Some? && from <= scale.value.at < end && Scorer.FreshScale(v.points, scale.value.at, v.params, scale.value)
  }

  lemma RememberIs(v: View, b: int, m: Memory, sqrt: real -> real)
    ensures Remember(v, b, m, sqrt).scale == m.scale || FreshIn(v, b, b + 1, Remember(v, b, m, sqrt).scale)
  {
    hide Scorer.ScoreWith, Scorer.RobustScale, Scorer.Fits, Scorer.Baseline;
    var _ := Scorer.ScoredRests(v.points, b, v.params, m.scale, sqrt, 0);
    var (r, after) := Scorer.ScoreWith(v.points, b, v.params, m.scale, sqrt);
    assert after == m.scale || (after.Some? && Scorer.FreshScale(v.points, b, v.params, after.value));
  }

  /** What is remembered in an evaluation is what was before it, or fresh from one of its buckets. */
  lemma {:induction false} MemoryIs(v: View, from: int, n: nat, m: Memory, sqrt: real -> real)
    ensures var scale := MemoryAfter(v, from, n, m, sqrt).scale; scale == m.scale || FreshIn(v, from, from + n, scale)
  {
    hide Remember, Scorer.FreshScale;
    if n > 0 {
      MemoryIs(v, from, n - 1, m, sqrt);
      RememberIs(v, from + n - 1, MemoryAfter(v, from, n - 1, m, sqrt), sqrt);
    }
  }

  /** The robust scale that bucket b is scored with. */
  function ScaleAt(v: View, from: int, b: int, m: Memory, sqrt: real -> real): Option<real>
    requires from <= b
  {
    Scorer.ScaleUsed(v.points, b, v.params, MemoryAfter(v, from, b - from, m, sqrt).scale)
  }

  /** It is the bucket's own, or one of the same mode and fewer than scaleEvery buckets old: that of an earlier
      bucket of this evaluation, or the one remembered before it. */
  lemma ScaleAtIs(v: View, from: int, b: int, m: Memory, sqrt: real -> real) returns (scale: Scorer.Scale)
    requires from <= b && b in v.points && ScaleAt(v, from, b, m, sqrt).Some?
    ensures ScaleAt(v, from, b, m, sqrt) == Some(scale.mad)
    ensures Scorer.FreshScale(v.points, b, v.params, scale)
      || (Scorer.Fits(Some(scale), b, v.params, Scorer.Baseline(v.points, b, v.params).value.seasonal)
          && (m.scale == Some(scale) || FreshIn(v, from, b, Some(scale))))
  {
    hide Scorer.Baseline, Scorer.RobustScale, MemoryAfter;
    MemoryIs(v, from, b - from, m, sqrt);
    var base, kept := Scorer.Baseline(v.points, b, v.params).value, MemoryAfter(v, from, b - from, m, sqrt).scale;
    scale := if Scorer.Fits(kept, b, v.params, base.seasonal) then kept.value
             else Scorer.Scale(ScaleAt(v, from, b, m, sqrt).value, b, base.seasonal);
  }

  // --- when an evaluation fires ---------------------------------------------------------------------

  /** What the reference makes of bucket b with the robust scale that it is scored with, widened for count data. */
  function Judged(v: View, from: int, b: int, m: Memory, sqrt: real -> real): Outcome
    requires from <= b
  {
    OutcomeOf(v, Scorer.Widened(Scorer.ScoreScaled(v.points, b, v.params, ScaleAt(v, from, b, m, sqrt)), v.params, sqrt))
  }

  lemma OutcomesAreJudged(v: View, from: int, n: nat, m: Memory, sqrt: real -> real, i: nat)
    requires i < n
    ensures Outcomes(v, from, n, m, sqrt)[i] == Judged(v, from, from + i, m, sqrt)
  {
    hide Outcomes, MemoryAfter, Scorer.ScoreWith, Scorer.ScoreScaled, Scorer.ScaleUsed, Scorer.Widened, Anomalous;
    OutcomesAt(v, from, n, m, sqrt, i);
    Scorer.ScoreIsReference(v.points, from + i, v.params, MemoryAfter(v, from, i, m, sqrt).scale, sqrt);
  }

  /** Did the last need buckets before from + i + 1 all have anomalous scores? Those before from are given
      by the history h. */
  predicate AllAnomalous(h: seq<Outcome>, v: View, from: int, i: nat, need: int, m: Memory, sqrt: real -> real) {
    && need <= |h| + i + 1
    && (forall j :: 0 <= j < |h| && |h| + i + 1 - need <= j ==> h[j] == Scored(true))
    && (forall b {:trigger Judged(v, from, b, m, sqrt)} :: from <= b <= from + i && from + i + 1 - need <= b ==>
          Judged(v, from, b, m, sqrt) == Scored(true))
  }

  /** After any history h of a series, an evaluation of the buckets from from on fires at bucket from + i
      exactly when the series is not firing then and the last need evaluated buckets were all anomalous by
      the reference's score with the scale that ScaleAtIs describes. */
  lemma EvaluationFiresExactly(h: seq<Outcome>, v: View, from: int, n: nat, m: Memory, sqrt: real -> real, i: nat, need: int)
    requires need >= 1 && i < n
    ensures var o := Outcomes(v, from, n, m, sqrt);
      EventAfter(Initial(false), h + o[..i], o[i], need) == Some(Fire)
      <==> !Run(Initial(false), h + o[..i], need).firing && AllAnomalous(h, v, from, i, need, m, sqrt)
  {
    hide Outcomes, MemoryAfter, Judged, Run, EventAfter;
    var o := Outcomes(v, from, n, m, sqrt);
    FiresExactly(false, h + o[..i], o[i], need);
    var all := h + o[..i] + [o[i]];
    forall b | from <= b <= from + i ensures all[|h| + b - from] == Judged(v, from, b, m, sqrt) {
      OutcomesAreJudged(v, from, n, m, sqrt, b - from);
    }
    if AllAnomalous(h, v, from, i, need, m, sqrt) {
      forall j | |h| + i + 1 - need <= j <= |h| + i ensures all[j] == Scored(true) {
        if j >= |h| {
          assert Judged(v, from, from + j - |h|, m, sqrt) == Scored(true);
        }
      }
    }
    if need <= |h| + i + 1 && forall j :: |h| + i + 1 - need <= j <= |h| + i ==> all[j] == Scored(true) {
      forall b | from <= b <= from + i && from + i + 1 - need <= b ensures Judged(v, from, b, m, sqrt) == Scored(true) {
        assert all[|h| + b - from] == Scored(true);
      }
      forall j | 0 <= j < |h| && |h| + i + 1 - need <= j ensures h[j] == Scored(true) {
        assert all[j] == h[j];
      }
    }
  }

  /** No scale is reused: each is good for one bucket at most, and the remembered one is older. */
  predicate NoReuse(v: View, from: int, m: Memory) {
    v.params.scaleEvery <= 0 || (v.params.scaleEvery <= 1 && (m.scale.Some? ==> m.scale.value.at < from))
  }

  /** What the reference makes of bucket b, widened for count data. */
  function ReferenceOutcome(v: View, b: int, sqrt: real -> real): Outcome {
    OutcomeOf(v, Scorer.Widened(Scorer.ScoreSeries(v.points, b, v.params), v.params, sqrt))
  }

  /** Then every outcome is what the reference says of that bucket alone. */
  lemma JudgedByReference(v: View, from: int, b: int, m: Memory, sqrt: real -> real)
    requires NoReuse(v, from, m) && from <= b
    ensures Judged(v, from, b, m, sqrt) == ReferenceOutcome(v, b, sqrt)
  {
    hide Scorer.ScoreWith, Scorer.ScoreScaled, Scorer.ScaleUsed, Scorer.ScoreSeries, Scorer.Widened, Scorer.FreshScale, MemoryAfter,
      OutcomeOf;
    MemoryIs(v, from, b - from, m, sqrt);
    Scorer.ScoreIsReference(v.points, b, v.params, MemoryAfter(v, from, b - from, m, sqrt).scale, sqrt);
  }

  /** An event of an evaluation of the buckets from from on, before end: a band event is of one of them and, but for a
      resolve, has the result of that bucket; an absence finding fires with the result last remembered. */
  predicate FromBucket(e: Event, v: View, from: int, end: int, m: Memory, sqrt: real -> real) {
    && (!e.absence ==> from <= e.b < end && (e.kind != Resolve ==> e.r == ResultAt(v, e.b, MemoryAfter(v, from, e.b - from, m, sqrt), sqrt)))
    && (e.absence && e.kind == Fire ==> exists n: nat :: n < end - from && e.r == MemoryAfter(v, from, n, m, sqrt).last)
  }

  ghost predicate AllFromBuckets(events: seq<Event>, v: View, from: int, end: int, m: Memory, sqrt: real -> real) {
    forall e {:trigger FromBucket(e, v, from, end, m, sqrt)} :: e in events ==> FromBucket(e, v, from, end, m, sqrt)
  }

  lemma OneBucketEvents(e0: Option<Event>, e1: Option<Event>, v: View, b: int, m: Memory, sqrt: real -> real)
    requires e0.Some? ==> e0.value.absence && (e0.value.kind == Fire ==> e0.value.r == m.last)
    requires e1.Some? ==> !e1.value.absence && e1.value.b == b && (e1.value.kind != Resolve ==> e1.value.r == ResultAt(v, b, m, sqrt))
    ensures AllFromBuckets(Known(e0) + Known(e1), v, b, b + 1, m, sqrt)
  {
    hide ResultAt;
    assert MemoryAfter(v, b, 0, m, sqrt) == m;
  }

  lemma NoEvents(v: View, from: int, m: Memory, sqrt: real -> real)
    ensures AllFromBuckets([], v, from, from, m, sqrt)
  {
  }

  lemma FromBucketsMore(events: seq<Event>, more: seq<Event>, v: View, from: int, b: int, m: Memory, sqrt: real -> real)
    requires from <= b && AllFromBuckets(events, v, from, b, m, sqrt)
    requires AllFromBuckets(more, v, b, b + 1, MemoryAfter(v, from, b - from, m, sqrt), sqrt)
    ensures AllFromBuckets(events + more, v, from, b + 1, m, sqrt)
  {
    hide ResultAt, Remember;
    forall e | e in events + more ensures FromBucket(e, v, from, b + 1, m, sqrt) {
      if e in events {
        assert FromBucket(e, v, from, b, m, sqrt);
      } else {
        assert FromBucket(e, v, b, b + 1, MemoryAfter(v, from, b - from, m, sqrt), sqrt);
        assert e.absence && e.kind == Fire ==> e.r == MemoryAfter(v, from, b - from, m, sqrt).last;
      }
    }
  }

  /** Detector state of one series. */
  class SeriesInfo {
    const metric: bool
    const dir: int
    const params: Scorer.Params
    const minVol: real
    const cache: Scorer.Cache
    var lastEval: int
    var pending: nat
    var normal: nat
    var missing: nat
    var firing: bool
    var last: Option<Scorer.Result>
    var absent: Presence
    var written: bool
    var absentRun: nat
    var absentSince: int
    var undefData: int

    constructor (metric: bool, dir: int, params: Scorer.Params, minVol: real)
      ensures this.metric == metric && this.dir == dir && this.params == params && this.minVol == minVol
      ensures Band() == Initial(false) && Gone() == Absence.Start(Created) && fresh(cache)
      ensures Recalled() == Memory(None, None) && lastEval == Buckets.NO_HEAD && undefData == 0 && !written
    {
      this.metric, this.dir, this.params, this.minVol := metric, dir, params, minVol;
      cache := new Scorer.Cache();
      lastEval, pending, normal, missing, firing, last := Buckets.NO_HEAD, 0, 0, 0, false, None;
      absent, written, absentRun, absentSince, undefData := Here, false, 0, 0, 0;
    }

    function Band(): Band
      reads `firing, `pending, `normal, `missing
    {
      Findings.Band(firing, pending, normal, missing)
    }

    function Gone(): Absence.State
      reads `absent, `absentRun, `absentSince
    {
      Absence.State(absent, absentRun, absentSince)
    }

    /** Is this a series whose absence is tracked? */
    predicate Tracked(c: Config)
    {
      metric && dir == 0 && c.absentBuckets > 0
    }

    /** What an evaluation reads. */
    ghost function Viewed(sr: Series, c: Config): View
      requires sr.Valid()
      reads `undefData, `written, sr, sr.vals, sr.late
    {
      View(sr.Points(), undefData, written, dir, minVol, params, c.threshold)
    }

    /** And what it remembers from bucket to bucket. */
    ghost function Recalled(): Memory
      reads `last, cache
    {
      Memory(cache.Remembered(), last)
    }

    /** What absence tracking looks at, if the series is one whose absence is tracked. */
    ghost function TrackedLooks(v: View, from: int, n: nat, m: Memory, seen: int -> bool, sqrt: real -> real, c: Config)
      : seq<Look>
    {
      if metric && dir == 0 && c.absentBuckets > 0 then Looks(v, from, n, m, seen, sqrt) else []
    }

    method TrackAbsent(sr: Series, c: Config, b: int, seen: int -> bool) returns (e: Option<Event>)
      requires sr.Valid()
      modifies `absent, `absentRun, `absentSince
      ensures var (st, k) := Track(old(Gone()), LookOf(Viewed(sr, c), b, Recalled(), seen), c.absentBuckets, c.absentTTL);
        && Gone() == st && KindOf(e) == k && (e.Some? ==> e.value.absence)
        && (k == Some(Fire) ==> e.value.b == absentSince && e.value.r == last)
    {
      Scorer.ShowsPoint(sr, b);
      if sr.At(b).Some? || undefData >= b {
        e := if absent == Absence.Gone then Some(Event(true, Resolve, b, None)) else None;
        absent, absentRun := Here, 0;
        return;
      }
      if absent == Absence.Gone {
        if c.absentTTL > 0 && b - absentSince >= c.absentTTL {
          absent := Expired;
          return Some(Event(true, Resolve, b, None));
        }
      } else if absent == Here && seen(b) {
        if absentRun == 0 {
          absentSince := b;
        }
        absentRun := absentRun + 1;
        if absentRun >= c.absentBuckets && written && last.Some? && last.value.expected > params.absFloor {
          absent := Absence.Gone;
          return Some(Event(true, Fire, absentSince, last));
        }
      }
      return None;
    }

    /** Scores bucket b and moves the band finding on. */
    method ScoreBucket(sr: Series, c: Config, b: int, sqrt: real -> real) returns (e: Option<Event>)
      requires sr.Valid()
      modifies `pending, `normal, `missing, `firing, `last, cache
      ensures Recalled() == Remember(Viewed(sr, c), b, old(Recalled()), sqrt)
      ensures var r := ResultAt(Viewed(sr, c), b, old(Recalled()), sqrt);
        var (st, k) := Step(old(Band()), OutcomeOf(Viewed(sr, c), r), c.forBuckets);
        && Band() == st && KindOf(e) == k && (e.Some? ==> !e.value.absence)
        && (k.Some? ==> e.value.b == b && (k != Some(Resolve) ==> e.value.r == r))
    {
      hide Scorer.ScoreWith, Anomalous, Series.Points, Series.Valid, Kinds, Known;
      ghost var m := Recalled();
      var r := Scorer.Score(sr, b, params, cache, sqrt);
      assert r == ResultAt(Viewed(sr, c), b, m, sqrt);
      if r.None? {
        missing, pending := missing + 1, 0;
        if firing && missing >= 3 {
          firing, normal := false, 0;
          return Some(Event(false, Resolve, b, None));
        }
        return None;
      }
      missing, last := 0, r;
      var anom := Anomalous(r.value, dir, minVol, c.threshold);
      if anom {
        pending, normal := pending + 1, 0;
      } else {
        normal, pending := normal + 1, 0;
      }
      if !firing && pending >= c.forBuckets {
        firing := true;
        return Some(Event(false, Fire, b, r));
      }
      if firing && anom {
        return Some(Event(false, Update, b, r));
      }
      if firing && normal >= 2 {
        firing := false;
        return Some(Event(false, Resolve, b, r));
      }
      return None;
    }

    /** Evaluates one bucket. */
    method EvalBucket(sr: Series, c: Config, b: int, seen: int -> bool, sqrt: real -> real) returns (events: seq<Event>)
      requires sr.Valid()
      modifies this, cache
      ensures Viewed(sr, c) == old(Viewed(sr, c)) && lastEval == b
      ensures Recalled() == Remember(Viewed(sr, c), b, old(Recalled()), sqrt)
      ensures var o := OutcomeOf(Viewed(sr, c), ResultAt(Viewed(sr, c), b, old(Recalled()), sqrt));
        var (st, k) := Step(old(Band()), o, c.forBuckets);
        Band() == st && Kinds(events, false) == Known(k)
      ensures var l := LookOf(Viewed(sr, c), b, old(Recalled()), seen);
        var (st, k) := if Tracked(c) then Track(old(Gone()), l, c.absentBuckets, c.absentTTL) else (old(Gone()), None);
        Gone() == st && Kinds(events, true) == Known(k)
      ensures AllFromBuckets(events, Viewed(sr, c), b, b + 1, old(Recalled()), sqrt)
    {
      hide Step, Track, Series.Points, Series.Valid, Kinds, Known, Remember, ResultAt, OutcomeOf, LookOf;
      lastEval := b;
      var e0, e1 := None, None;
      if Tracked(c) {
        e0 := TrackAbsent(sr, c, b, seen);
      }
      e1 := ScoreBucket(sr, c, b, sqrt);
      events := Known(e0) + Known(e1);
      KindsOfPair(e0, e1);
      OneBucketEvents(e0, e1, Viewed(sr, c), b, old(Recalled()), sqrt);
    }

    lemma NothingYet(v: View, from: int, m: Memory, seen: int -> bool, sqrt: real -> real, band: Band, gone: Absence.State,
                     c: Config)
      ensures MemoryAfter(v, from, 0, m, sqrt) == m && Outcomes(v, from, 0, m, sqrt) == []
      ensures TrackedLooks(v, from, 0, m, seen, sqrt, c) == [] && Kinds([], true) == Kinds([], false) == []
      ensures Run(band, [], c.forBuckets) == band && Emitted(band, [], c.forBuckets) == []
      ensures RunTrack(gone, [], c.absentBuckets, c.absentTTL) == gone
      ensures AbsenceEvents(gone, [], c.absentBuckets, c.absentTTL) == []
    {
    }

    lemma OneBucketMore(v: View, from: int, n: nat, m: Memory, seen: int -> bool, sqrt: real -> real, band: Band, gone: Absence.State,
                        c: Config)
      ensures MemoryAfter(v, from, n + 1, m, sqrt) == Remember(v, from + n, MemoryAfter(v, from, n, m, sqrt), sqrt)
      ensures var h, o := Outcomes(v, from, n, m, sqrt), OutcomeOf(v, ResultAt(v, from + n, MemoryAfter(v, from, n, m, sqrt), sqrt));
        var (st, k) := Step(Run(band, h, c.forBuckets), o, c.forBuckets);
        && Run(band, Outcomes(v, from, n + 1, m, sqrt), c.forBuckets) == st
        && Emitted(band, Outcomes(v, from, n + 1, m, sqrt), c.forBuckets) == Emitted(band, h, c.forBuckets) + Known(k)
      ensures var h, l := TrackedLooks(v, from, n, m, seen, sqrt, c), LookOf(v, from + n, MemoryAfter(v, from, n, m, sqrt), seen);
        var h' := TrackedLooks(v, from, n + 1, m, seen, sqrt, c);
        var (st, k) := if Tracked(c) then Track(RunTrack(gone, h, c.absentBuckets, c.absentTTL), l, c.absentBuckets, c.absentTTL)
                       else (RunTrack(gone, h, c.absentBuckets, c.absentTTL), None);
        && RunTrack(gone, h', c.absentBuckets, c.absentTTL) == st
        && AbsenceEvents(gone, h', c.absentBuckets, c.absentTTL) == AbsenceEvents(gone, h, c.absentBuckets, c.absentTTL) + Known(k)
    {
      hide Run, Emitted, RunTrack, AbsenceEvents, Step, Track, Remember, ResultAt, OutcomeOf, LookOf;
      var before := MemoryAfter(v, from, n, m, sqrt);
      RunMore(band, Outcomes(v, from, n, m, sqrt), OutcomeOf(v, ResultAt(v, from + n, before, sqrt)), c.forBuckets);
      RunTrackMore(gone, Looks(v, from, n, m, seen, sqrt), LookOf(v, from + n, before, seen), c.absentBuckets, c.absentTTL);
    }

    /** Evaluates the buckets up to last that are new, at most the last three. */
    method EvalSeries(sr: Series, c: Config, last: int, seen: int -> bool, sqrt: real -> real) returns (events: seq<Event>)
      requires sr.Valid()
      modifies this, cache
      ensures Viewed(sr, c) == old(Viewed(sr, c)) && lastEval == Max(old(lastEval), last)
      ensures var v, from, m := Viewed(sr, c), Findings.Start(old(lastEval), last), old(Recalled());
        var n := |Range(from, last)|;
        var outcomes, looks := Outcomes(v, from, n, m, sqrt), TrackedLooks(v, from, n, m, seen, sqrt, c);
        && Recalled() == MemoryAfter(v, from, n, m, sqrt)
        && Band() == Run(old(Band()), outcomes, c.forBuckets)
        && Kinds(events, false) == Emitted(old(Band()), outcomes, c.forBuckets)
        && Gone() == RunTrack(old(Gone()), looks, c.absentBuckets, c.absentTTL)
        && Kinds(events, true) == AbsenceEvents(old(Gone()), looks, c.absentBuckets, c.absentTTL)
      ensures AllFromBuckets(events, Viewed(sr, c), Findings.Start(old(lastEval), last), lastEval + 1, old(Recalled()), sqrt)
    {
      hide *;
      events := [];
      var from := Findings.Start(lastEval, last);
      var b := from;
      ghost var band, gone, v, m := Band(), Gone(), Viewed(sr, c), Recalled();
      RangeIs(from, last);
      StartIs(lastEval, last);
      NothingYet(v, from, m, seen, sqrt, band, gone, c);
      NoEvents(v, from, m, sqrt);
      while b <= last
        invariant from <= b && (b <= last + 1 || b == from) && Viewed(sr, c) == v
        invariant lastEval == if b == from then old(lastEval) else b - 1
        invariant Recalled() == MemoryAfter(v, from, b - from, m, sqrt)
        invariant Band() == Run(band, Outcomes(v, from, b - from, m, sqrt), c.forBuckets)
        invariant Kinds(events, false) == Emitted(band, Outcomes(v, from, b - from, m, sqrt), c.forBuckets)
        invariant Gone() == RunTrack(gone, TrackedLooks(v, from, b - from, m, seen, sqrt, c), c.absentBuckets, c.absentTTL)
        invariant Kinds(events, true) == AbsenceEvents(gone, TrackedLooks(v, from, b - from, m, seen, sqrt, c), c.absentBuckets, c.absentTTL)
        invariant AllFromBuckets(events, v, from, b, m, sqrt)
      {
        var more := EvalBucket(sr, c, b, seen, sqrt);
        FromBucketsMore(events, more, v, from, b, m, sqrt);
        KindsConcat(events, more, false);
        KindsConcat(events, more, true);
        OneBucketMore(v, from, b - from, m, seen, sqrt, band, gone, c);
        events := events + more;
        b := b + 1;
      }
    }
  }

  lemma StartIs(lastEval: int, last: int)
    ensures Findings.Start(lastEval, last) > lastEval && (Findings.Start(lastEval, last) <= last <==> last > lastEval)
    ensures Max(lastEval, last) == if last > lastEval then last else lastEval
    ensures last <= lastEval ==> Findings.Start(lastEval, last) == lastEval + 1
  {
  }

  lemma {:induction false} KindsConcat(a: seq<Event>, b: seq<Event>, absence: bool)
    ensures Kinds(a + b, absence) == Kinds(a, absence) + Kinds(b, absence)
  {
    if b == [] {
      assert a + b == a;
      assert Kinds(a, absence) + [] == Kinds(a, absence);
    } else {
      KindsConcat(a, b[..|b|-1], absence);
      assert (a + b)[..|a + b|-1] == a + b[..|b|-1];
    }
  }

  lemma RunMore(st: Band, h: seq<Outcome>, o: Outcome, need: int)
    ensures var (after, k) := Step(Run(st, h, need), o, need);
      Run(st, h + [o], need) == after && Emitted(st, h + [o], need) == Emitted(st, h, need) + Known(k)
  {
    assert (h + [o])[..|h|] == h;
  }

  lemma RunTrackMore(st: Absence.State, h: seq<Look>, l: Look, need: int, ttl: int)
    ensures var (after, k) := Track(RunTrack(st, h, need, ttl), l, need, ttl);
      RunTrack(st, h + [l], need, ttl) == after && AbsenceEvents(st, h + [l], need, ttl) == AbsenceEvents(st, h, need, ttl) + Known(k)
  {
    assert (h + [l])[..|h|] == h;
  }

  /** The newest of the buckets from b down to low that has a value, or low. */
  function NewestAt(vals: map<int, real>, b: int, low: int): (r: int)
    ensures low <= b ==> low <= r <= b && (r == low || r in vals)
    ensures forall x :: x in vals && x <= b ==> x <= r || x < low
    decreases b - low
  {
    if b <= low || b in vals then b else NewestAt(vals, b - 1, low)
  }

  lemma RingBounds(s: Series)
    requires s.Valid() && s.head != Buckets.NO_HEAD
    ensures s.n > 0 && s.book.head == s.head && forall b {:trigger b in s.book.vals} :: b in s.book.vals ==> b < s.head
  {
  }

  /** The newest closed bucket with a value, or the one just before the ring if there is none: what a
      restored series takes for its newest data. */
  method NewestClosed(s: Series) returns (b: int)
    requires s.Valid() && s.head != Buckets.NO_HEAD
    ensures b == NewestAt(s.book.vals, s.head - 1, s.head - s.n)
    ensures forall x :: x in s.book.vals ==> x <= b
  {
    hide Series.Valid;
    RingBounds(s);
    b := s.head - 1;
    while b > s.head - s.n && s.At(b).None?
      invariant s.head - s.n <= b < s.head
      invariant NewestAt(s.book.vals, b, s.head - s.n) == NewestAt(s.book.vals, s.head - 1, s.head - s.n)
    {
      Scorer.ShowsPoint(s, b);
      b := b - 1;
    }
    Scorer.ShowsPoint(s, b);
  }
}
