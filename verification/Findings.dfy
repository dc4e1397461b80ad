/** The life of a band finding: which evaluated buckets fire, update and resolve it. */
module Findings {
  import opened Numbers
  import opened Options
  import opened Sequences

  /** What scoring one bucket came to. */
  datatype Outcome = Refused | Scored(anomalous: bool)

  datatype Kind = Fire | Update | Resolve

  /** The part of a series' state that decides its band finding. */
  datatype Band = Band(firing: bool, pending: nat, normal: nat, missing: nat)

  /** Buckets scored per series per evaluation after a gap. */
  const MAX_CATCH_UP: int := 3

  /** The state of a series that was just created, or restored with a firing finding. */
  function Initial(firing: bool): Band {
    Band(firing, 0, 0, 0)
  }

  /** One evaluated bucket: the new state and the event, if any. need is how many anomalous buckets in
      a row it takes to fire. */
  function Step(st: Band, o: Outcome, need: int): (Band, Option<Kind>) {
    match o
    case Refused =>
      if st.firing && st.missing + 1 >= 3 then (Band(false, 0, 0, st.missing + 1), Some(Resolve))
      else (st.(pending := 0, missing := st.missing + 1), None)
    case Scored(anomalous) =>
      var pending := if anomalous then st.pending + 1 else 0;
      var normal := if anomalous then 0 else st.normal + 1;
      if !st.firing && pending >= need then (Band(true, pending, normal, 0), Some(Fire))
      else if st.firing && anomalous then (Band(true, pending, normal, 0), Some(Update))
      else if st.firing && normal >= 2 then (Band(false, pending, normal, 0), Some(Resolve))
      else (Band(st.firing, pending, normal, 0), None)
  }

  function Run(st: Band, h: seq<Outcome>, need: int): Band {
    if h == [] then st else Step(Run(st, h[..|h|-1], need), h[|h|-1], need).0
  }

  /** The event that outcome o causes after history h, if any. */
  function EventAfter(st: Band, h: seq<Outcome>, o: Outcome, need: int): Option<Kind> {
    Step(Run(st, h, need), o, need).1
  }

  /** All events of a history, in order. */
  function Emitted(st: Band, h: seq<Outcome>, need: int): seq<Kind> {
    if h == [] then []
    else Emitted(st, h[..|h|-1], need) + Known(EventAfter(st, h[..|h|-1], h[|h|-1], need))
  }

  // --- grammar ------------------------------------------------------------------------------------

  /** Is a group (Fire Update* Resolve) open after one more event? None if the event does not fit. */
  function Next(open: Option<bool>, e: Kind): Option<bool> {
    if open.None? || open.value == e.Fire? then None else Some(!e.Resolve?)
  }

  /** Reads events as (Fire Update* Resolve)*, possibly from within a group and possibly ending in one:
      whether a group is open at the end, or None if the events do not fit. */
  function OpenAfter(open: bool, events: seq<Kind>): Option<bool> {
    if events == [] then Some(open) else Next(OpenAfter(open, events[..|events|-1]), events[|events|-1])
  }

  lemma OneMore(open: bool, events: seq<Kind>, e: Option<Kind>)
    ensures OpenAfter(open, events + Known(e))
         == if e.None? then OpenAfter(open, events) else Next(OpenAfter(open, events), e.value)
  {
    if e.Some? {
      assert (events + [e.value])[..|events|] == events;
    } else {
      assert events + [] == events;
    }
  }

  lemma StepFits(st: Band, o: Outcome, need: int)
    ensures var (after, e) := Step(st, o, need);
      if e.None? then after.firing == st.firing else Next(Some(st.firing), e.value) == Some(after.firing)
  {
  }

  /** The events of any history form groups of one firing, any updates and one resolve, and a group is
      open exactly while the series is firing. */
  lemma {:induction false} EventGrammar(st: Band, h: seq<Outcome>, need: int)
    ensures OpenAfter(st.firing, Emitted(st, h, need)) == Some(Run(st, h, need).firing)
  {
    if h != [] {
      hide Next, Step, OpenAfter;
      var before, o := h[..|h|-1], h[|h|-1];
      EventGrammar(st, before, need);
      StepFits(Run(st, before, need), o, need);
      OneMore(st.firing, Emitted(st, before, need), EventAfter(st, before, o, need));
    } else {
      assert OpenAfter(st.firing, []) == Some(st.firing);
    }
  }

  // --- when each event happens, in terms of the history alone -----------------------------------------

  /** How many of the last outcomes in a row are anomalous. */
  function AnomalousRun(h: seq<Outcome>): nat {
    if h == [] || h[|h|-1] != Scored(true) then 0 else AnomalousRun(h[..|h|-1]) + 1
  }

  function RefusedRun(h: seq<Outcome>): nat {
    if h == [] || h[|h|-1] != Refused then 0 else RefusedRun(h[..|h|-1]) + 1
  }

  /** How many normal outcomes there are after the last anomalous one. */
  function NormalsSince(h: seq<Outcome>): nat {
    if h == [] || h[|h|-1] == Scored(true) then 0
    else NormalsSince(h[..|h|-1]) + if h[|h|-1] == Scored(false) then 1 else 0
  }

  lemma {:induction false} AnomalousRunIs(h: seq<Outcome>, n: nat)
    ensures AnomalousRun(h) >= n <==> n <= |h| && forall i :: |h| - n <= i < |h| ==> h[i] == Scored(true)
  {
    if n > 0 && h != [] {
      AnomalousRunIs(h[..|h|-1], n - 1);
    }
  }

  /** The counters are functions of the history, and a firing series has not yet met its third refusal
      in a row nor its second normal bucket. */
  lemma {:induction false} Counters(firing: bool, h: seq<Outcome>, need: int)
    requires need >= 1
    ensures var st := Run(Initial(firing), h, need);
      && st.pending == AnomalousRun(h) && st.missing == RefusedRun(h)
      && (st.firing ==> st.normal == NormalsSince(h) && st.normal < 2 && st.missing < 3)
  {
    if h != [] {
      Counters(firing, h[..|h|-1], need);
    }
  }

  /** A series fires exactly when it is not firing and the last need evaluated buckets were all scored
      and anomalous. */
  lemma FiresExactly(firing: bool, h: seq<Outcome>, o: Outcome, need: int)
    requires need >= 1
    ensures EventAfter(Initial(firing), h, o, need) == Some(Fire) <==>
      && !Run(Initial(firing), h, need).firing
      && need <= |h| + 1 && forall i :: |h| + 1 - need <= i <= |h| ==> (h + [o])[i] == Scored(true)
  {
    Counters(firing, h, need);
    assert (h + [o])[..|h|] == h;
    AnomalousRunIs(h + [o], need);
  }

  /** A firing series resolves exactly at the third refused bucket in a row, or at the second normal
      bucket with no anomalous one between. */
  lemma ResolvesExactly(firing: bool, h: seq<Outcome>, o: Outcome, need: int)
    requires need >= 1 && Run(Initial(firing), h, need).firing
    ensures RefusedRun(h + [o]) <= 3 && NormalsSince(h + [o]) <= 2
    ensures EventAfter(Initial(firing), h, o, need) == Some(Resolve) <==> RefusedRun(h + [o]) == 3 || NormalsSince(h + [o]) == 2
    ensures EventAfter(Initial(firing), h, o, need) == Some(Update) <==> o == Scored(true)
  {
    Counters(firing, h, need);
    assert (h + [o])[..|h|] == h;
  }

  /** Without a positive need, a normal bucket fires, and a firing series may resolve at its first
      normal bucket after that. */
  lemma NeedMustBePositive(need: int)
    requires need <= 0
    ensures var h := [Scored(false), Scored(false)];
      && EventAfter(Initial(false), h, Scored(false), need) == Some(Fire)
      && EventAfter(Initial(false), h + [Scored(false)], Scored(false), need) == Some(Resolve)
  {
    var h0, h1, h2 := [Scored(false)], [Scored(false), Scored(false)], [Scored(false), Scored(false), Scored(false)];
    assert h0[..0] == [] && h1[..1] == h0 && h2[..2] == h1;
    assert Run(Initial(false), h0, need) == Band(true, 0, 1, 0);
    assert Run(Initial(false), h1, need) == Band(false, 0, 2, 0);
    assert Run(Initial(false), h2, need) == Band(true, 0, 3, 0);
  }

  // --- which buckets are evaluated ----------------------------------------------------------------------

  /** The first bucket that an evaluation up to last looks at. */
  function Start(lastEval: int, last: int): int {
    Max(lastEval + 1, last - MAX_CATCH_UP + 1)
  }

  function Range(from: int, last: int): seq<int>
    decreases last - from
  {
    if last < from then [] else Range(from, last - 1) + [last]
  }

  /** The last evaluated bucket after evaluations up to each of lasts. */
  function LastEval(lastEval: int, lasts: seq<int>): int {
    if lasts == [] then lastEval else Max(LastEval(lastEval, lasts[..|lasts|-1]), lasts[|lasts|-1])
  }

  /** All buckets evaluated, in order. */
  function Evaluated(lastEval: int, lasts: seq<int>): seq<int> {
    if lasts == [] then []
    else
      var before, last := lasts[..|lasts|-1], lasts[|lasts|-1];
      Evaluated(lastEval, before) + Range(Start(LastEval(lastEval, before), last), last)
  }

  lemma {:induction false} RangeIs(from: int, last: int)
    ensures forall b :: b in Range(from, last) <==> from <= b <= last
    ensures forall i {:trigger Range(from, last)[i]} :: 0 <= i < |Range(from, last)| ==> Range(from, last)[i] == from + i
    ensures |Range(from, last)| == if last < from then 0 else last - from + 1
    decreases last - from
  {
    if last >= from {
      RangeIs(from, last - 1);
    }
  }

  /** Bucket b was reached for the first time by evaluation i. */
  predicate FirstReached(lasts: seq<int>, i: nat, b: int) {
    i < |lasts| && b <= lasts[i] && forall j :: 0 <= j < i ==> lasts[j] < b
  }

  lemma {:induction false} LastEvalIs(lastEval: int, lasts: seq<int>)
    ensures LastEval(lastEval, lasts) >= lastEval && forall i :: 0 <= i < |lasts| ==> lasts[i] <= LastEval(lastEval, lasts)
    ensures LastEval(lastEval, lasts) == lastEval || LastEval(lastEval, lasts) in lasts
  {
    if lasts != [] {
      LastEvalIs(lastEval, lasts[..|lasts|-1]);
    }
  }

  /** Whatever the clocks do, buckets are evaluated in increasing order and so at most once. */
  lemma {:induction false} EvaluatedInOrder(lastEval: int, lasts: seq<int>)
    ensures Increasing(Evaluated(lastEval, lasts))
    ensures forall b :: b in Evaluated(lastEval, lasts) ==> lastEval < b <= LastEval(lastEval, lasts)
  {
    if lasts != [] {
      var before, last := lasts[..|lasts|-1], lasts[|lasts|-1];
      EvaluatedInOrder(lastEval, before);
      LastEvalIs(lastEval, before);
      var e, r := Evaluated(lastEval, before), Range(Start(LastEval(lastEval, before), last), last);
      RangeIs(Start(LastEval(lastEval, before), last), last);
      forall i, j | 0 <= i < j < |e + r| ensures (e + r)[i] < (e + r)[j] {
        if i < |e| <= j {
          assert e[i] in e && r[j - |e|] in r;
        }
      }
    }
  }

  /** Bucket b was reached by evaluation i for the first time, and in time. */
  predicate ReachedInTime(lasts: seq<int>, i: nat, b: int) {
    FirstReached(lasts, i, b) && lasts[i] <= b + 2
  }

  lemma ReachedBefore(lasts: seq<int>, i: nat, b: int)
    requires i + 1 < |lasts|
    ensures ReachedInTime(lasts[..|lasts|-1], i, b) <==> ReachedInTime(lasts, i, b)
  {
    var before := lasts[..|lasts|-1];
    assert before[i] == lasts[i];
    if FirstReached(before, i, b) {
      forall j | 0 <= j < i ensures lasts[j] < b {
        assert before[j] == lasts[j];
      }
    }
  }

  lemma ReachedMore(lasts: seq<int>, b: int)
    requires lasts != []
    ensures (exists i: nat {:trigger ReachedInTime(lasts, i, b)} :: ReachedInTime(lasts, i, b))
      <==> (exists i: nat {:trigger ReachedInTime(lasts[..|lasts|-1], i, b)} :: ReachedInTime(lasts[..|lasts|-1], i, b))
           || ReachedInTime(lasts, |lasts| - 1, b)
  {
    var before := lasts[..|lasts|-1];
    if i: nat {:trigger ReachedInTime(lasts, i, b)} :| ReachedInTime(lasts, i, b) && i + 1 < |lasts| {
      ReachedBefore(lasts, i, b);
    }
    if i: nat {:trigger ReachedInTime(before, i, b)} :| ReachedInTime(before, i, b) {
      ReachedBefore(lasts, i, b);
    }
  }

  /** The last evaluation looks at b exactly if b is new to it. */
  lemma ReachedLast(lastEval: int, lasts: seq<int>, b: int)
    requires lasts != []
    ensures var before, last := lasts[..|lasts|-1], lasts[|lasts|-1];
      b in Range(Start(LastEval(lastEval, before), last), last) <==> b > lastEval && ReachedInTime(lasts, |before|, b)
  {
    var before, last := lasts[..|lasts|-1], lasts[|lasts|-1];
    LastEvalIs(lastEval, before);
    RangeIs(Start(LastEval(lastEval, before), last), last);
    forall j | 0 <= j < |before| ensures before[j] == lasts[j] {
    }
    if b > lastEval && ReachedInTime(lasts, |before|, b) {
      assert forall x :: x in before ==> x < b;
    }
  }

  /** A bucket is evaluated exactly when it is new and the first evaluation to reach it was at most
      three buckets past it. */
  lemma {:induction false} EvaluatedExactly(lastEval: int, lasts: seq<int>, b: int)
    ensures b in Evaluated(lastEval, lasts) <==>
      b > lastEval && exists i: nat {:trigger ReachedInTime(lasts, i, b)} :: ReachedInTime(lasts, i, b)
  {
    if lasts != [] {
      hide Range, ReachedInTime, LastEval;
      EvaluatedExactly(lastEval, lasts[..|lasts|-1], b);
      ReachedLast(lastEval, lasts, b);
      ReachedMore(lasts, b);
    }
  }
}
