/** What a score is, said without the functions that compute it: which buckets it needs, which values it
    compares with, where the band lies and how wide it is. */
module ScoreLaws {
  import opened Options
  import opened Sequences
  import opened Medians
  import opened Scorer

  // --- what is looked at, by counting ---------------------------------------------------------------

  function Asked(q: real -> bool, v: real): bool {
    q(v)
  }

  /** The value k seasons before t is known and satisfies q. */
  predicate BackIs(points: map<int, real>, t: int, season: int, k: int, q: real -> bool) {
    t - k * season in points && Asked(q, points[t - k * season])
  }

  ghost function BacksTo(points: map<int, real>, t: int, season: int, n: int, q: real -> bool): (r: set<int>)
    ensures forall k :: k in r <==> 1 <= k <= n && BackIs(points, t, season, k, q)
    ensures n < 1 ==> r == {}
  {
    set k | 1 <= k <= n && BackIs(points, t, season, k, q)
  }

  ghost function Backs(points: map<int, real>, t: int, p: Params, q: real -> bool): set<int> {
    BacksTo(points, t, p.season, p.seasons, q)
  }

  /** The buckets of [from, end) that are known and satisfy q. */
  ghost function Within(points: map<int, real>, from: int, end: int, q: real -> bool): (r: set<int>)
    ensures forall t :: t in r <==> from <= t < end && t in points && Asked(q, points[t])
    ensures end <= from ==> r == {}
  {
    set t | from <= t < end && t in points && Asked(q, points[t])
  }

  function All(): real -> bool {
    v => true
  }

  lemma CountOne(s: seq<real>, v: Option<real>, q: real -> bool)
    ensures Count(s + Known(v), q) == Count(s, q) + if v.Some? && Asked(q, v.value) then 1 else 0
  {
    if v.Some? {
      assert (s + [v.value])[..|s|] == s;
    } else {
      assert s + [] == s;
    }
  }

  lemma {:induction false} CountAll(s: seq<real>)
    ensures Count(s, All()) == |s|
  {
    if s != [] {
      CountAll(s[..|s|-1]);
    }
  }

  lemma {:induction false} HistoryCount(points: map<int, real>, t: int, season: int, n: nat, q: real -> bool)
    ensures Count(History(points, t, season, n), q) == |BacksTo(points, t, season, n, q)|
  {
    hide Count, BackIs, BacksTo;
    if n == 0 {
      NothingCounted(q);
    } else {
      HistoryCount(points, t, season, n - 1, q);
      CountOne(History(points, t, season, n - 1), Point(points, t - n * season), q);
      BackOne(points, t, season, n, q);
      OneMore(BacksTo(points, t, season, n - 1, q), BacksTo(points, t, season, n, q), n, BackIs(points, t, season, n, q));
    }
  }

  lemma NothingCounted(q: real -> bool)
    ensures Count([], q) == 0
  {
  }

  lemma BackOne(points: map<int, real>, t: int, season: int, n: int, q: real -> bool)
    ensures var v := Point(points, t - n * season); BackIs(points, t, season, n, q) <==> v.Some? && Asked(q, v.value)
  {
  }

  /** The past values of a bucket are those one to seasons seasons before it that are known. */
  lemma BacksCounted(points: map<int, real>, t: int, p: Params, q: real -> bool)
    ensures Count(History(points, t, p.season, Seasons(p)), q) == |Backs(points, t, p, q)|
  {
    HistoryCount(points, t, p.season, Seasons(p), q);
  }

  lemma {:induction false} WindowCount(points: map<int, real>, from: int, end: int, q: real -> bool)
    ensures Count(Window(points, from, end), q) == |Within(points, from, end, q)|
    decreases end - from
  {
    hide Count, Within, Asked;
    if end <= from {
      NothingCounted(q);
    } else {
      WindowCount(points, from, end - 1, q);
      CountOne(Window(points, from, end - 1), Point(points, end - 1), q);
      OneMore(Within(points, from, end - 1, q), Within(points, from, end, q), end - 1, end - 1 in points && Asked(q, points[end-1]));
    }
  }

  /** The middle values of n, of which so many are less and so many greater. */
  predicate Middle(n: nat, lessLo: nat, greaterLo: nat, lessHi: nat, greaterHi: nat) {
    && lessLo + greaterLo < n && lessHi + greaterHi < n
    && 2 * lessLo < n && 2 * greaterLo <= n && 2 * lessHi <= n && 2 * greaterHi < n
  }

  lemma {:induction false} CountLess(s: seq<real>, v: real)
    ensures Count(s, x => x < v) + Count(s, x => x > v) + Count(s, x => x == v) == |s|
    ensures v in s ==> Count(s, x => x == v) > 0
  {
    if s != [] {
      CountLess(s[..|s|-1], v);
      assert s == s[..|s|-1] + [s[|s|-1]];
    }
  }

  lemma MedianMiddle(s: seq<real>) returns (lo: real, hi: real)
    requires s != []
    ensures 2.0 * Median(s) == lo + hi
    ensures Middle(|s|, Count(s, x => x < lo), Count(s, x => x > lo), Count(s, x => x < hi), Count(s, x => x > hi))
  {
    hide Median, Count;
    lo, hi := MedianByCounting(s);
    CountLess(s, lo);
    CountLess(s, hi);
    assert Less(s, lo) == Count(s, x => x < lo) && Greater(s, lo) == Count(s, x => x > lo);
    assert Less(s, hi) == Count(s, x => x < hi) && Greater(s, hi) == Count(s, x => x > hi);
  }

  /** The expected value of a bucket is the mean of the two middle ones of its known values one to seasons
      seasons before; there is one exactly if one of those is known. */
  lemma ExpectedMeans(points: map<int, real>, t: int, p: Params) returns (lo: real, hi: real)
    ensures ExpectedAt(points, t, p).Some? <==> Backs(points, t, p, All()) != {}
    ensures ExpectedAt(points, t, p).Some? ==>
      && 2.0 * ExpectedAt(points, t, p).value == lo + hi
      && Middle(|Backs(points, t, p, All())|, |Backs(points, t, p, x => x < lo)|, |Backs(points, t, p, x => x > lo)|,
                |Backs(points, t, p, x => x < hi)|, |Backs(points, t, p, x => x > hi)|)
  {
    hide Median, Count, History, Backs;
    var h := History(points, t, p.season, Seasons(p));
    BacksCounted(points, t, p, All());
    CountAll(h);
    lo, hi := 0.0, 0.0;
    if h != [] {
      lo, hi := MedianMiddle(h);
      BacksCounted(points, t, p, x => x < lo);
      BacksCounted(points, t, p, x => x > lo);
      BacksCounted(points, t, p, x => x < hi);
      BacksCounted(points, t, p, x => x > hi);
    }
  }

  /** What the newest bucket is compared with: the seasonal median, or in cold start the median of the known values
      of the lookback, of which there must be three. */
  lemma BaselineMeans(points: map<int, real>, now: int, p: Params) returns (lo: real, hi: real)
    ensures Baseline(points, now, p).None? <==>
      Backs(points, now, p, All()) == {} && |Within(points, now - p.lookback, now, All())| < 3
    ensures Baseline(points, now, p).Some? ==>
      var base, from := Baseline(points, now, p).value, now - p.lookback;
      && (base.seasonal <==> Backs(points, now, p, All()) != {})
      && (base.seasonal ==> ExpectedAt(points, now, p) == Some(base.expected))
      && (!base.seasonal ==>
            && 2.0 * base.expected == lo + hi
            && Middle(|Within(points, from, now, All())|, |Within(points, from, now, x => x < lo)|,
                      |Within(points, from, now, x => x > lo)|, |Within(points, from, now, x => x < hi)|,
                      |Within(points, from, now, x => x > hi)|))
  {
    hide Median, Count, Window, Backs, Within, ExpectedAt, Middle;
    lo, hi := ExpectedMeans(points, now, p);
    var from := now - p.lookback;
    var w := Window(points, from, now);
    WindowCount(points, from, now, All());
    CountAll(w);
    if w != [] {
      lo, hi := MedianMiddle(w);
      WindowCount(points, from, now, x => x < lo);
      WindowCount(points, from, now, x => x > lo);
      WindowCount(points, from, now, x => x < hi);
      WindowCount(points, from, now, x => x > hi);
    }
  }

  // --- the residuals of the last season -------------------------------------------------------------

  /** Bucket t is known and has something to be compared with: a value one to seasons seasons before it or, in
      cold start, what the newest bucket is compared with. The difference satisfies q. */
  predicate RestIs(points: map<int, real>, t: int, p: Params, base: Base, q: real -> bool) {
    && t in points && (base.seasonal ==> ExpectedAt(points, t, p).Some?)
    && Asked(q, points[t] - if base.seasonal then ExpectedAt(points, t, p).value else base.expected)
  }

  ghost function Rests(points: map<int, real>, from: int, end: int, p: Params, base: Base, q: real -> bool): (r: set<int>)
    ensures forall t :: t in r <==> from <= t < end && RestIs(points, t, p, base, q)
    ensures end <= from ==> r == {}
  {
    set t | from <= t < end && RestIs(points, t, p, base, q)
  }

  lemma RestOne(points: map<int, real>, t: int, p: Params, base: Base, q: real -> bool)
    ensures |Residual(points, t, p, base.seasonal, base.expected)| <= 1
    ensures var r := Residual(points, t, p, base.seasonal, base.expected);
      RestIs(points, t, p, base, q) <==> |r| == 1 && Asked(q, r[0])
  {
  }

  lemma CountNext(s: seq<real>, r: seq<real>, q: real -> bool)
    requires |r| <= 1
    ensures Count(s + r, q) == Count(s, q) + if |r| == 1 && Asked(q, r[0]) then 1 else 0
  {
    CountOne(s, if r == [] then None else Some(r[0]), q);
    assert r == if r == [] then [] else [r[0]];
  }

  lemma {:induction false} RestsCount(points: map<int, real>, from: int, end: int, p: Params, base: Base, q: real -> bool)
    ensures Count(Residuals(points, from, end, p, base.seasonal, base.expected), q) == |Rests(points, from, end, p, base, q)|
    decreases end - from
  {
    hide Count, Rests, RestIs, Residual;
    if end <= from {
      NothingCounted(q);
    } else {
      RestsCount(points, from, end - 1, p, base, q);
      RestOne(points, end - 1, p, base, q);
      CountNext(Residuals(points, from, end - 1, p, base.seasonal, base.expected),
                Residual(points, end - 1, p, base.seasonal, base.expected), q);
      OneMore(Rests(points, from, end - 1, p, base, q), Rests(points, from, end, p, base, q), end - 1,
              RestIs(points, end - 1, p, base, q));
    }
  }

  /** A bucket is refused exactly when it has no value; or there is none in the seasons before it and fewer than
      three in the lookback; or there is no scale that fits, and in the last season fewer than ten buckets that are
      known and, if the bucket is compared with past seasons, have a known value there themselves. */
  lemma RefusedMeans(points: map<int, real>, now: int, p: Params, scale: Option<Scale>, sqrt: real -> real)
    ensures ScoreWith(points, now, p, scale, sqrt).0.None? <==>
      var seasonal := Backs(points, now, p, All()) != {};
      || now !in points
      || (!seasonal && |Within(points, now - p.lookback, now, All())| < 3)
      || (!Fits(scale, now, p, seasonal)
          && |set t | now - p.season <= t < now && t in points && (seasonal ==> Backs(points, t, p, All()) != {})| < 10)
  {
    hide Backs, Within, Baseline, LastSeason, ScoreWith, Fits, RestIs;
    RefusedExactly(points, now, p, scale, sqrt);
    var _, _ := BaselineMeans(points, now, p);
    if Baseline(points, now, p).Some? {
      var base := Baseline(points, now, p).value;
      LastSeasonCount(points, now, p, base);
    }
  }

  lemma LastSeasonCount(points: map<int, real>, now: int, p: Params, base: Base)
    ensures |LastSeason(points, now, p, base)|
         == |set t | now - p.season <= t < now && t in points && (base.seasonal ==> Backs(points, t, p, All()) != {})|
  {
    hide Backs, Count, Residuals, ExpectedAt;
    var rests := Rests(points, now - p.season, now, p, base, All());
    RestsCount(points, now - p.season, now, p, base, All());
    CountAll(LastSeason(points, now, p, base));
    var known := set t | now - p.season <= t < now && t in points && (base.seasonal ==> Backs(points, t, p, All()) != {});
    forall t ensures t in known <==> t in rests {
      var _, _ := ExpectedMeans(points, t, p);
    }
    OneMore(known, rests, now, false);
  }

  // --- the score and its band -----------------------------------------------------------------------

  lemma QuotientOrder(x: real, s: real, t: real)
    requires s > 0.0
    ensures (x / s) * s == x && (x / s > t <==> x > t * s) && (x / s >= t <==> x >= t * s)
    ensures (x / s < -t <==> x < -(t * s)) && (x / s <= -t <==> x <= -(t * s))
  {
    var v := x / s;
    assert v * s == x;
    Scaled(v, t, s);
    Scaled(v, -t, s);
  }

  /** Where a score stands to a threshold, in terms of the value. */
  lemma ScaledBoth(v: real, t: real, s: real, x: real)
    requires s > 0.0 && v * s == x
    ensures (v >= t <==> x >= t * s) && (v <= -t <==> x <= -(t * s))
  {
    Scaled(v, t, s);
    Scaled(-t, v, s);
    assert (-t) * s == -(t * s);
  }

  lemma Scaled(v: real, t: real, s: real)
    requires s > 0.0
    ensures (v > t <==> v * s > t * s) && (v >= t <==> v * s >= t * s)
  {
    assert (v - t) * s == v * s - t * s;
  }

  lemma ScoreShape(points: map<int, real>, now: int, p: Params, scale: Option<Scale>, sqrt: real -> real) returns (mad: real)
    requires ScoreWith(points, now, p, scale, sqrt).0.Some?
    ensures now in points && Baseline(points, now, p).Some? && ScaleUsed(points, now, p, scale) == Some(mad)
    ensures ScoreWith(points, now, p, scale, sqrt).0 == Some(WithFloors(points[now], Baseline(points, now, p).value, mad, p, sqrt))
  {
    hide Baseline, RobustScale, Floored, WithFloors, Widened, Scorer.Scored;
    mad := if ScaleUsed(points, now, p, scale).Some? then ScaleUsed(points, now, p, scale).value else 0.0;
    ScoreWithScale(points, now, p, scale, mad, sqrt);
  }

  /** What one result says of its band. */
  predicate BandOf(r: Result, threshold: real) {
    && r.upper - r.expected == r.expected - r.lower == threshold * r.scale
    && (r.scale > 0.0 ==>
          && r.score.Finite? && r.score.v * r.scale == r.observed - r.expected
          && (r.score.v > threshold <==> r.observed > r.upper) && (r.score.v < -threshold <==> r.observed < r.lower))
    && (r.scale == 0.0 ==>
          && (r.score == Infinite(true) <==> r.observed > r.expected)
          && (r.score == Infinite(false) <==> r.observed < r.expected)
          && (r.score == Undefined <==> r.observed == r.expected))
  }

  lemma ScoredBand(obs: real, base: Base, s: real, p: Params)
    ensures BandOf(Scorer.Scored(obs, base, s, p), p.threshold)
  {
    if s > 0.0 {
      QuotientOrder(obs - base.expected, s, p.threshold);
    }
  }

  lemma FloorsBand(obs: real, base: Base, mad: real, p: Params, sqrt: real -> real)
    ensures var r := WithFloors(obs, base, mad, p, sqrt);
      r.observed == obs && base == Base(r.expected, r.seasonal) && BandOf(r, p.threshold)
  {
    hide BandOf;
    var floored := Scorer.Max(Scorer.Max(mad, p.absFloor), p.relFloor * Abs(base.expected));
    var s := if p.poisson then Scorer.Max(floored, Root(sqrt, Scorer.Max(base.expected, 1.0))) else floored;
    ScoredBand(obs, base, s, p);
    assert base == Base(base.expected, base.seasonal);
    var r := WithFloors(obs, base, mad, p, sqrt);
    assert r.scale == s;
    assert r == Scorer.Scored(obs, base, s, p);
  }

  /** s is the largest of the robust scale, the floors and, for count data, the root of the expected count or of one. */
  predicate Largest(s: real, mad: real, expected: real, p: Params, sqrt: real -> real) {
    var floor := p.relFloor * if expected < 0.0 then -expected else expected;
    var root := Root(sqrt, if expected > 1.0 then expected else 1.0);
    && s >= mad && s >= p.absFloor && s >= floor && (p.poisson ==> s >= root)
    && (s == mad || s == p.absFloor || s == floor || (p.poisson && s == root))
  }

  lemma FloorsScale(obs: real, base: Base, mad: real, p: Params, sqrt: real -> real)
    ensures Largest(WithFloors(obs, base, mad, p, sqrt).scale, mad, base.expected, p, sqrt)
  {
    hide Quotient, HalfBand, Root;
    assert Abs(base.expected) == if base.expected < 0.0 then -base.expected else base.expected;
    assert Scorer.Max(base.expected, 1.0) == if base.expected > 1.0 then base.expected else 1.0;
  }

  /** Times its scale, the score is how far the value is from the expected one; the band lies threshold scales to
      either side of that, and the value is outside of it exactly when the score is beyond the threshold. With a
      scale of zero the score is infinite with the sign of the difference, and no number without one. */
  lemma ScoreMeans(points: map<int, real>, now: int, p: Params, scale: Option<Scale>, sqrt: real -> real)
    requires ScoreWith(points, now, p, scale, sqrt).0.Some?
    ensures var r := ScoreWith(points, now, p, scale, sqrt).0.value;
      && now in points && r.observed == points[now] && Baseline(points, now, p) == Some(Base(r.expected, r.seasonal))
      && BandOf(r, p.threshold)
  {
    hide Baseline, ScoreWith, ScaleUsed, WithFloors, BandOf;
    var mad := ScoreShape(points, now, p, scale, sqrt);
    FloorsBand(points[now], Baseline(points, now, p).value, mad, p, sqrt);
  }

  /** The scale is the largest of the robust scale used, the floors and, for count data, the root of the expected
      count, that being at least one. */
  lemma ScaleMeans(points: map<int, real>, now: int, p: Params, scale: Option<Scale>, sqrt: real -> real)
    requires ScoreWith(points, now, p, scale, sqrt).0.Some?
    ensures var r, used := ScoreWith(points, now, p, scale, sqrt).0.value, ScaleUsed(points, now, p, scale);
      used.Some? && Largest(r.scale, used.value, r.expected, p, sqrt)
  {
    hide Baseline, ScoreWith, ScaleUsed, WithFloors, Largest;
    var mad := ScoreShape(points, now, p, scale, sqrt);
    FloorsScale(points[now], Baseline(points, now, p).value, mad, p, sqrt);
  }

  /** The robust scale is 1.4826 times the deviation: if more than half of the residuals of the last season are at
      least lo and at most hi away from their median, it is between 1.4826 times lo and 1.4826 times hi. */
  lemma RobustScaleMeans(points: map<int, real>, now: int, p: Params, base: Base, kept: set<nat>, lo: real, hi: real)
    requires RobustScale(points, now, p, base).Some?
    requires var r := LastSeason(points, now, p, base);
      && r != [] && 2 * |kept| > |r|
      && var m := Median(r);
         forall i :: i in kept ==> i < |r| && m - hi <= r[i] <= m + hi && (r[i] <= m - lo || r[i] >= m + lo)
    ensures 1.4826 * lo <= RobustScale(points, now, p, base).value <= 1.4826 * hi
  {
    hide Mad, Median, LastSeason;
    MadBetween(LastSeason(points, now, p, base), kept, lo, hi);
  }

  predicate NonNegative(scale: Option<Scale>) {
    scale.Some? ==> scale.value.mad >= 0.0
  }

  /** Scales are never negative. */
  lemma ScaleNonNegative(points: map<int, real>, now: int, p: Params, scale: Option<Scale>, sqrt: real -> real)
    requires NonNegative(scale)
    ensures var (r, after) := ScoreWith(points, now, p, scale, sqrt);
      NonNegative(after) && (r.Some? ==> r.value.scale >= 0.0)
  {
    hide Baseline, LastSeason, Mad, Quotient, HalfBand, Root;
    if Baseline(points, now, p).Some? {
      var rests := LastSeason(points, now, p, Baseline(points, now, p).value);
      if rests != [] {
        MadNonNegative(rests);
      }
    }
  }

  /** A remembered scale serves the buckets of its mode up to scaleEvery - 1 after its own; the next one that is
      scored, and any of the other mode, replaces it by its own. */
  lemma ScaleExpires(points: map<int, real>, now: int, p: Params, scale: Scale, sqrt: real -> real)
    requires ScoreWith(points, now, p, Some(scale), sqrt).0.Some?
    ensures var (r, after) := ScoreWith(points, now, p, Some(scale), sqrt);
      if scale.at <= now <= scale.at + p.scaleEvery - 1 && r.value.seasonal == scale.seasonal then after == Some(scale)
      else after.Some? && after.value.at == now && after.value.seasonal == r.value.seasonal
           && RobustScale(points, now, p, Base(r.value.expected, r.value.seasonal)) == Some(after.value.mad)
  {
    hide Baseline, RobustScale, Floored, Quotient, HalfBand;
  }
}
