/** How old the newest data of a firing series can get: evaluations count the buckets without a score,
    restarts forget that count. */
module Recency {
  import opened Numbers
  import opened Options
  import opened Findings
  import opened Absence

  /** The detector state of one stored series, so far as findings and garbage collection need it. */
  datatype Info = Info(band: Band, gone: Absence.State, lastEval: int, lastData: int)

  const NO_EVAL: int := -0x8000_0000_0000_0000

  /** A series that was just created. */
  function New(): Info {
    Info(Initial(false), Absence.Start(Created), NO_EVAL, 0)
  }

  /** The series as a restart finds it, before findings are restored. */
  function Reloaded(i: Info, newest: int): Info {
    Info(Initial(false), Absence.Start(Created), i.lastEval, newest)
  }

  /** The band after an evaluation up to last. */
  function Evaluate1(i: Info, outcomes: seq<Outcome>, last: int, need: int): Info {
    i.(band := Run(i.band, outcomes, need), lastEval := if outcomes == [] then i.lastEval else last)
  }

  /** Garbage collection of metric series, and of log series. */
  predicate DropsMetric(i: Info, open: int, capacity: nat) {
    i.lastData < open - capacity && i.gone.presence != Gone
  }

  predicate DropsLog(i: Info, open: int, season: int) {
    i.lastData < open - season && !i.band.firing
  }

  // --- one evaluation -------------------------------------------------------------------------------

  /** How many buckets an evaluation up to last looks at. */
  function NewBuckets(lastEval: int, last: int): nat {
    Max(0, Min(last - lastEval, MAX_CATCH_UP))
  }

  lemma NewBucketsIs(lastEval: int, last: int)
    ensures |Range(Findings.Start(lastEval, last), last)| == NewBuckets(lastEval, last)
  {
    RangeIs(Findings.Start(lastEval, last), last);
  }

  /** What an evaluation up to last makes of one series: an outcome for every new bucket, and no scored
      one is so far past its newest data that a ring would lie between them. */
  predicate Truthful(i: Info, outcomes: seq<Outcome>, last: int, capacity: nat) {
    && |outcomes| == NewBuckets(i.lastEval, last)
    && forall j {:trigger outcomes[j]} :: 0 <= j < |outcomes| && outcomes[j].Scored? ==>
         Findings.Start(i.lastEval, last) + j <= i.lastData + capacity - MAX_CATCH_UP
  }

  /** The position of the last scored bucket, or -1. */
  function LastScored(h: seq<Outcome>): (j: int)
    ensures -1 <= j < |h| && (j >= 0 ==> h[j].Scored?)
  {
    if h == [] then -1 else if h[|h|-1].Scored? then |h| - 1 else LastScored(h[..|h|-1])
  }

  lemma {:induction false} NoneScored(h: seq<Outcome>)
    requires forall j {:trigger h[j]} :: 0 <= j < |h| ==> h[j] == Refused
    ensures LastScored(h) == -1
  {
    if h != [] {
      NoneScored(h[..|h|-1]);
    }
  }

  /** Buckets after the last scored one are counted by missing; without any the count goes on, and the
      third resolves. */
  lemma {:induction false} Counted(st: Band, h: seq<Outcome>, need: int)
    requires st.firing ==> st.missing < 3
    ensures var r, j := Run(st, h, need), LastScored(h);
      && (r.firing ==> r.missing < 3)
      && (if j >= 0 then r.missing == |h| - 1 - j
          else r.missing == st.missing + |h| && (r.firing <==> st.firing && st.missing + |h| < 3))
  {
    if h != [] {
      Counted(st, h[..|h|-1], need);
    }
  }

  /** Is a firing series about to be dropped? Its data is more than a ring old, and the buckets still to be
      looked at are too few to resolve it. */
  predicate LosesFiring(i: Info, open: int, capacity: nat) {
    i.band.firing && i.band.missing + NewBuckets(i.lastEval, open - 1) < 3 && i.lastData < open - capacity
  }

  /** Exactly then it is still firing after the evaluation and its data more than a ring old. */
  lemma LosesExactly(i: Info, outcomes: seq<Outcome>, open: int, need: int, capacity: nat)
    requires Truthful(i, outcomes, open - 1, capacity) && (i.band.firing ==> i.band.missing < 3)
    ensures var j := Evaluate1(i, outcomes, open - 1, need);
      && (j.band.firing ==> j.band.missing < 3)
      && (j.band.firing && j.lastData < open - capacity <==> LosesFiring(i, open, capacity))
  {
    Counted(i.band, outcomes, need);
    if i.lastData < open - capacity {
      NoneScored(outcomes);
    }
  }

  // --- over evaluations, deliveries and restarts ------------------------------------------------------

  /** What happens to one metric series. newest is what a restart takes for its newest data. */
  datatype Happening =
    | Evaluated(outcomes: seq<Outcome>, last: int)
    | Delivered(b: int)
    | Restarted(newest: int)

  /** The last scored bucket of a firing series, and how many restarts ago that was. */
  datatype Trail = Trail(anchor: int, restarts: nat)

  function After(i: Info, x: Happening, need: int): Info {
    match x
    case Evaluated(outcomes, last) => Evaluate1(i, outcomes, last, need)
    case Delivered(b) => i.(lastData := Max(i.lastData, b))
    case Restarted(newest) => Reloaded(i, newest).(band := Initial(i.band.firing))
  }

  function TrailAfter(i: Info, t: Trail, x: Happening): Trail {
    match x
    case Evaluated(outcomes, last) =>
      if LastScored(outcomes) >= 0 then Trail(Findings.Start(i.lastEval, last) + LastScored(outcomes), 0) else t
    case Delivered(_) => t
    case Restarted(_) => t.(restarts := t.restarts + 1)
  }

  /** A restart finds a firing series' last scored bucket, or a newer one: it was closed with a value. */
  predicate Plausible(i: Info, t: Trail, x: Happening, capacity: nat) {
    match x
    case Evaluated(outcomes, last) => Truthful(i, outcomes, last, capacity)
    case Delivered(_) => true
    case Restarted(newest) => i.band.firing ==> newest >= t.anchor
  }

  /** A firing series was last evaluated at most two buckets past its last scored one for the present
      life and for every restart since. */
  predicate OnTrail(i: Info, t: Trail, capacity: nat) {
    i.band.firing ==>
      && i.band.missing < 3
      && i.lastEval <= t.anchor + i.band.missing + 2 * t.restarts
      && t.anchor <= i.lastData + if t.restarts == 0 then capacity - 3 else 0
  }

  lemma StaysOnTrail(i: Info, t: Trail, x: Happening, need: int, capacity: nat)
    requires OnTrail(i, t, capacity) && Plausible(i, t, x, capacity)
    ensures OnTrail(After(i, x, need), TrailAfter(i, t, x), capacity)
  {
    if x.Evaluated? {
      Counted(i.band, x.outcomes, need);
    }
  }

  /** While twice the restarts leave three buckets of the ring, a firing series is not lost. */
  lemma OnTrailIsKept(i: Info, t: Trail, open: int, capacity: nat)
    requires OnTrail(i, t, capacity) && (i.band.firing ==> 2 * t.restarts + 3 <= capacity)
    ensures !LosesFiring(i, open, capacity)
  {
  }

  function Life(h: seq<Happening>, need: int): (Info, Trail) {
    if h == [] then (New(), Trail(NO_EVAL, 0))
    else
      var (i, t) := Life(h[..|h|-1], need);
      (After(i, h[|h|-1], need), TrailAfter(i, t, h[|h|-1]))
  }

  predicate PlausibleLife(h: seq<Happening>, need: int, capacity: nat) {
    h == [] || (PlausibleLife(h[..|h|-1], need, capacity)
                && var (i, t) := Life(h[..|h|-1], need); Plausible(i, t, h[|h|-1], capacity))
  }

  lemma {:induction false} LifeOnTrail(h: seq<Happening>, need: int, capacity: nat)
    requires PlausibleLife(h, need, capacity)
    ensures var (i, t) := Life(h, need); OnTrail(i, t, capacity)
  {
    if h != [] {
      hide OnTrail, Plausible;
      var (i, t) := Life(h[..|h|-1], need);
      LifeOnTrail(h[..|h|-1], need, capacity);
      StaysOnTrail(i, t, h[|h|-1], need, capacity);
    }
  }

  lemma TrailCounts(i: Info, t: Trail, capacity: nat)
    requires OnTrail(i, t, capacity)
    ensures i.band.firing ==> i.band.missing < 3
  {
  }

  /** Whatever happened to a series, an evaluation does not leave it firing with data more than a ring old,
      so long as it was scored no more than (capacity - 3) / 2 restarts ago. */
  lemma FiringIsKept(h: seq<Happening>, outcomes: seq<Outcome>, last: int, need: int, capacity: nat)
    requires PlausibleLife(h, need, capacity) && Truthful(Life(h, need).0, outcomes, last, capacity)
    requires 2 * Life(h, need).1.restarts + 3 <= capacity
    ensures var j := Evaluate1(Life(h, need).0, outcomes, last, need); j.band.firing ==> !DropsMetric(j, last + 1, capacity)
  {
    hide OnTrail, Truthful, Plausible;
    LifeOnTrail(h, need, capacity);
    var (i, t) := Life(h, need);
    OnTrailIsKept(i, t, last + 1, capacity);
    TrailCounts(i, t, capacity);
    LosesExactly(i, outcomes, last + 1, need, capacity);
  }

  // --- the bound is tight -----------------------------------------------------------------------------

  /** The series was scored in its last bucket and is firing, with no data since. */
  predicate JustScored(i: Info, t: Trail) {
    i.band.firing && i.band.missing == 0 && i.gone.presence != Gone && t == Trail(i.lastEval, 0) && i.lastData == i.lastEval
  }

  /** A silent series from bucket a on, over n restarts: each comes after two buckets without a value, when
      the newest data found is that of a or, once the ring has passed it, the bucket before the ring. */
  function Silence(a: int, n: nat, capacity: nat): seq<Happening> {
    if n == 0 then []
    else Silence(a, n - 1, capacity) + [Evaluated([Refused, Refused], a + 2 * n), Restarted(Max(a, a + 2 * n + 1 - capacity))]
  }

  lemma TwoRefused(st: Band, need: int)
    requires st.firing && st.missing == 0
    ensures var r := Run(st, [Refused, Refused], need); r.firing && r.missing == 2
    ensures LastScored([Refused, Refused]) == -1
  {
    NoneScored([Refused, Refused]);
    Counted(st, [Refused, Refused], need);
  }

  lemma OneMoreHappening(h: seq<Happening>, x: Happening, need: int, capacity: nat)
    requires PlausibleLife(h, need, capacity) && var (i, t) := Life(h, need); Plausible(i, t, x, capacity)
    ensures PlausibleLife(h + [x], need, capacity)
    ensures var (i, t) := Life(h, need); Life(h + [x], need) == (After(i, x, need), TrailAfter(i, t, x))
  {
    assert (h + [x])[..|h|] == h;
  }

  /** A silent series n restarts after bucket a, when it was last scored. */
  predicate Silent(i: Info, t: Trail, a: int, n: nat, capacity: nat) {
    && i.band.firing && i.band.missing == 0 && i.gone.presence != Gone && t == Trail(a, n)
    && i.lastEval == a + 2 * n && i.lastData == if n == 0 then a else Max(a, a + 2 * n + 1 - capacity)
  }

  lemma OneRound(i: Info, t: Trail, a: int, n: nat, need: int, capacity: nat)
    requires Silent(i, t, a, n, capacity)
    ensures var x, y := Evaluated([Refused, Refused], a + 2 * n + 2), Restarted(Max(a, a + 2 * n + 3 - capacity));
      var i', t' := After(i, x, need), TrailAfter(i, t, x);
      && Plausible(i, t, x, capacity) && Plausible(i', t', y, capacity)
      && Silent(After(i', y, need), TrailAfter(i', t', y), a, n + 1, capacity)
  {
    TwoRefused(i.band, need);
  }

  /** The count of missing buckets is not saved, so a silent series stays firing however often the server
      restarts every two buckets. */
  lemma {:induction false} StaysFiring(h: seq<Happening>, n: nat, need: int, capacity: nat)
    requires PlausibleLife(h, need, capacity) && JustScored(Life(h, need).0, Life(h, need).1)
    ensures var a := Life(h, need).0.lastEval;
      var h' := h + Silence(a, n, capacity);
      var (i, t) := Life(h', need);
      PlausibleLife(h', need, capacity) && Silent(i, t, a, n, capacity)
  {
    hide Life, PlausibleLife, Run, LastScored, Plausible, After, TrailAfter;
    var a := Life(h, need).0.lastEval;
    if n == 0 {
      assert h + Silence(a, 0, capacity) == h;
    } else {
      StaysFiring(h, n - 1, need, capacity);
      var before := h + Silence(a, n - 1, capacity);
      var x, y := Evaluated([Refused, Refused], a + 2 * n), Restarted(Max(a, a + 2 * n + 1 - capacity));
      var (i, t) := Life(before, need);
      OneRound(i, t, a, n - 1, need, capacity);
      OneMoreHappening(before, x, need, capacity);
      OneMoreHappening(before + [x], y, need, capacity);
      assert h + Silence(a, n, capacity) == before + [x] + [y];
    }
  }

  /** After n such restarts and two more silent buckets garbage collection drops the series under its
      firing finding exactly when the restarts have used up the ring. */
  lemma RestartsLoseASeries(h: seq<Happening>, n: nat, need: int, capacity: nat)
    requires PlausibleLife(h, need, capacity) && JustScored(Life(h, need).0, Life(h, need).1)
    ensures var a := Life(h, need).0.lastEval;
      var h' := h + Silence(a, n, capacity);
      var (i, t) := Life(h', need);
      var last := a + 2 * n + 2;
      var j := Evaluate1(i, [Refused, Refused], last, need);
      && PlausibleLife(h', need, capacity) && t.restarts == n && Truthful(i, [Refused, Refused], last, capacity)
      && j.band.firing && (DropsMetric(j, last + 1, capacity) <==> 2 * n + 3 > capacity)
  {
    hide Life, PlausibleLife, Run, LastScored, Silence;
    StaysFiring(h, n, need, capacity);
    TwoRefused(Life(h + Silence(Life(h, need).0.lastEval, n, capacity), need).0.band, need);
  }
}
