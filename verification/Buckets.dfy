/** What a bucketed series means without a ring: an unbounded map of closed buckets, the open bucket,
    and the sample counts that late samples need. Missing values are absent keys. */
module Buckets {
  datatype Agg = Mean | Sum

  const NO_HEAD: int := -0x8000_0000_0000_0000

  /** How many recently closed buckets keep their sample count. */
  const LATE_WIN: int := 8

  /** Sample counts are 32 bits wide. */
  const COUNT_LIMIT: int := 0x1_0000_0000

  datatype Book = Book(agg: Agg, head: int, vals: map<int, real>, late: map<int, nat>, acc: real, cnt: nat)

  datatype Event = Sample(b: int, v: real) | Close(b: int)

  function Empty(agg: Agg): Book {
    Book(agg, NO_HEAD, map[], map[], 0.0, 0)
  }

  function Wrap(n: nat): (r: nat) {
    n % COUNT_LIMIT
  }

  function LateCount(k: Book, b: int): nat {
    if b in k.late then k.late[b] else 0
  }

  /** Zero for every bucket strictly between a and b. */
  function Zeros(a: int, b: int): (r: map<int, real>)
    ensures forall x :: x in r <==> a < x < b
    ensures forall x :: x in r ==> r[x] == 0.0
    decreases b - a
  {
    if b - a <= 1 then map[] else Zeros(a, b - 1)[b - 1 := 0.0]
  }

  /** Closes buckets up to b - 1 and opens b. */
  function Advance(k: Book, b: int): Book {
    if k.head == NO_HEAD || b <= k.head then k
    else
      var closed := if k.agg == Sum then k.vals[k.head := k.acc]
                    else if k.cnt == 0 then k.vals - {k.head}
                    else k.vals[k.head := k.acc / k.cnt as real];
      var gap := if k.agg == Sum then Zeros(k.head, b) else map[];
      k.(head := b, vals := closed + gap, late := k.late[k.head := k.cnt], acc := 0.0, cnt := 0)
  }

  /** A mean of n samples with one more sample v. */
  function Blend(mean: real, n: nat, v: real): real {
    (mean * n as real + v) / (n + 1) as real
  }

  /** A sample for a closed bucket. */
  function AddLate(k: Book, b: int, v: real): Book {
    var recent := b >= k.head - LATE_WIN;
    if b !in k.vals then k.(vals := k.vals[b := v], late := if recent then k.late[b := 1] else k.late)
    else if k.agg == Sum then k.(vals := k.vals[b := k.vals[b] + v])
    else if recent then
      var n := if LateCount(k, b) > 1 then LateCount(k, b) else 1;
      k.(vals := k.vals[b := Blend(k.vals[b], n, v)], late := k.late[b := Wrap(n + 1)])
    else k
  }

  function Add(k: Book, b: int, v: real): Book {
    if b < 0 then k
    else if k.head == NO_HEAD then k.(head := b, acc := v, cnt := 1)
    else if b == k.head then k.(acc := k.acc + v, cnt := Wrap(k.cnt + 1))
    else if b > k.head then Advance(k, b).(acc := v, cnt := 1)
    else AddLate(k, b, v)
  }

  function Apply(k: Book, e: Event): Book {
    match e
    case Sample(b, v) => Add(k, b, v)
    case Close(b) => Advance(k, b)
  }

  function Run(agg: Agg, events: seq<Event>): Book {
    if events == [] then Empty(agg) else Apply(Run(agg, events[..|events|-1]), events[|events|-1])
  }

  // --- the samples of one bucket --------------------------------------------------------------------

  function SamplesOf(events: seq<Event>, b: int): seq<real> {
    if events == [] then []
    else
      var e := events[|events|-1];
      SamplesOf(events[..|events|-1], b) + if e.Sample? && e.b == b then [e.v] else []
  }

  function Total(s: seq<real>): real {
    if s == [] then 0.0 else Total(s[..|s|-1]) + s[|s|-1]
  }

  /** Is a sample for b, arriving at k, for a bucket that is open, new or among the last eight closed? */
  predicate OnTime(k: Book, b: int) {
    b >= k.head - LATE_WIN
  }

  /** The samples of bucket b that arrived on time, or those that did not. */
  function Arrived(agg: Agg, events: seq<Event>, b: int, onTime: bool): seq<real> {
    if events == [] then []
    else
      var before, e := events[..|events|-1], events[|events|-1];
      Arrived(agg, before, b, onTime) + if e.Sample? && e.b == b && OnTime(Run(agg, before), b) == onTime then [e.v] else []
  }

  lemma {:induction false} TotalAppend(s: seq<real>, v: real)
    ensures Total(s + [v]) == Total(s) + v
  {
    assert (s + [v])[..|s|] == s;
  }

  /** The agg of a run never changes, and its head is a bucket. */
  lemma {:induction false} RunShape(agg: Agg, events: seq<Event>)
    ensures Run(agg, events).agg == agg && (Run(agg, events).head == NO_HEAD || Run(agg, events).head >= 0)
    ensures Run(agg, events).head == NO_HEAD ==> Run(agg, events) == Empty(agg)
  {
    if events != [] {
      RunShape(agg, events[..|events|-1]);
    }
  }

  // --- mean series ------------------------------------------------------------------------------------

  /** The book and the samples of bucket b agree, s being those on time and u the others. The open
      bucket has the sum and count of s. A closed one has the mean of s, or without any the first of
      u; while it is recent its count is known. */
  predicate MeanAgrees(k: Book, b: int, s: seq<real>, u: seq<real>) {
    if k.head == NO_HEAD || b > k.head then s == [] && u == []
    else if b == k.head then k.acc == Total(s) && k.cnt == |s| && u == []
    else
      && (if s != [] then b in k.vals && k.vals[b] == Total(s) / |s| as real
          else if u != [] then b in k.vals && k.vals[b] == u[0]
          else b !in k.vals)
      && (OnTime(k, b) ==> u == [] && LateCount(k, b) == |s|)
  }

  /** Buckets after the head hold nothing yet. */
  lemma {:induction false} NothingAhead(agg: Agg, events: seq<Event>, b: int)
    requires var k := Run(agg, events); k.head == NO_HEAD || b >= k.head
    ensures b !in Run(agg, events).vals && b !in Run(agg, events).late
  {
    RunShape(agg, events);
    if events != [] {
      var before, e := events[..|events|-1], events[|events|-1];
      RunShape(agg, before);
      if Run(agg, before).head == NO_HEAD || b >= Run(agg, before).head {
        NothingAhead(agg, before, b);
      }
    }
  }

  lemma MeanLate(was: real, s: seq<real>, v: real)
    requires s != [] && was == Total(s) / |s| as real
    ensures Blend(was, |s|, v) == Total(s + [v]) / |s + [v]| as real
  {
    hide Total;
    TotalAppend(s, v);
    MeanOfOneMore(Total(s), |s|, v);
  }

  lemma MeanOfOneMore(total: real, n: nat, v: real)
    requires n > 0
    ensures Blend(total / n as real, n, v) == (total + v) / (n + 1) as real
  {
    var r := n as real;
    assert (total / r) * r == total;
  }

  lemma MeanLateStep(k: Book, b: int, s: seq<real>, u: seq<real>, v: real)
    requires k.agg == Mean && 0 <= b < k.head && MeanAgrees(k, b, s, u) && |s| + 1 < COUNT_LIMIT
    ensures if OnTime(k, b) then MeanAgrees(AddLate(k, b, v), b, s + [v], u) else MeanAgrees(AddLate(k, b, v), b, s, u + [v])
  {
    hide Total;
    TotalAppend(s, v);
    if s == [] {
      TotalOfOne(v);
      assert s + [v] == [v];
    } else {
      MeanLate(k.vals[b], s, v);
    }
  }

  lemma TotalOfOne(v: real)
    ensures Total([v]) == v
  {
    assert [v][..0] == [];
  }

  lemma MeanAdvance(k: Book, b: int, s: seq<real>, u: seq<real>, to: int)
    requires k.agg == Mean && b >= 0 && MeanAgrees(k, b, s, u) && k.head != NO_HEAD
    requires b >= k.head ==> b !in k.vals && b !in k.late
    ensures MeanAgrees(Advance(k, to), b, s, u)
  {
  }

  lemma MeanStep(k: Book, e: Event, b: int, s: seq<real>, u: seq<real>)
    requires k.agg == Mean && b >= 0 && MeanAgrees(k, b, s, u) && (k.head == NO_HEAD || k.head >= 0)
    requires (k.head == NO_HEAD || b >= k.head) ==> b !in k.vals && b !in k.late
    requires |s| + 1 < COUNT_LIMIT
    ensures if !(e.Sample? && e.b == b) then MeanAgrees(Apply(k, e), b, s, u)
            else if OnTime(k, b) then MeanAgrees(Apply(k, e), b, s + [e.v], u)
            else MeanAgrees(Apply(k, e), b, s, u + [e.v])
  {
    hide Total;
    TotalOfNone();
    if k.head != NO_HEAD && e.b > k.head {
      MeanAdvance(k, b, s, u, e.b);
    }
    if e.Sample? && e.b == b {
      TotalAppend(s, e.v);
      TotalOfOne(e.v);
      if k.head != NO_HEAD && b < k.head {
        MeanLateStep(k, b, s, u, e.v);
      } else if k.head == NO_HEAD || b > k.head {
        assert s + [e.v] == [e.v];
      }
    }
  }

  lemma TotalOfNone()
    ensures Total([]) == 0.0
  {
  }

  lemma {:induction false} ArrivedShorter(agg: Agg, events: seq<Event>, b: int)
    ensures events != [] ==> |Arrived(agg, events[..|events|-1], b, true)| <= |Arrived(agg, events, b, true)|
  {
  }

  lemma {:induction false} MeanRun(events: seq<Event>, b: int)
    requires b >= 0 && |Arrived(Mean, events, b, true)| + 1 < COUNT_LIMIT
    ensures MeanAgrees(Run(Mean, events), b, Arrived(Mean, events, b, true), Arrived(Mean, events, b, false))
  {
    if events != [] {
      var before, e := events[..|events|-1], events[|events|-1];
      ArrivedShorter(Mean, events, b);
      MeanRun(before, b);
      RunShape(Mean, before);
      var k := Run(Mean, before);
      if k.head == NO_HEAD || b >= k.head {
        NothingAhead(Mean, before, b);
      }
      MeanStep(k, e, b, Arrived(Mean, before, b, true), Arrived(Mean, before, b, false));
      assert Arrived(Mean, before, b, true) + [] == Arrived(Mean, before, b, true);
      assert Arrived(Mean, before, b, false) + [] == Arrived(Mean, before, b, false);
    }
  }

  lemma {:induction false} AllOnTime(agg: Agg, events: seq<Event>, b: int)
    requires Arrived(agg, events, b, false) == []
    ensures Arrived(agg, events, b, true) == SamplesOf(events, b)
  {
    if events != [] {
      AllOnTime(agg, events[..|events|-1], b);
    }
  }

  /** After any run a closed bucket of a mean series holds the mean of the samples that came while it
      was open or among the last eight closed; if none did, the first that came later; if none came
      at all, nothing. */
  lemma ClosedMean(events: seq<Event>, b: int)
    requires 0 <= b < Run(Mean, events).head && |Arrived(Mean, events, b, true)| + 1 < COUNT_LIMIT
    ensures var k, s, u := Run(Mean, events), Arrived(Mean, events, b, true), Arrived(Mean, events, b, false);
      if s != [] then b in k.vals && k.vals[b] == Total(s) / |s| as real
      else if u != [] then b in k.vals && k.vals[b] == u[0]
      else b !in k.vals
  {
    MeanRun(events, b);
  }

  /** An older closed bucket of a mean series that has a value never changes again. */
  lemma {:induction false} OldMeanFixed(k: Book, events: seq<Event>, b: int)
    requires k.agg == Mean && b in k.vals && b < k.head - LATE_WIN && k.head >= 0
    ensures b in RunFrom(k, events).vals && RunFrom(k, events).vals[b] == k.vals[b]
    ensures RunFrom(k, events).agg == Mean && RunFrom(k, events).head >= k.head
  {
    if events != [] {
      OldMeanFixed(k, events[..|events|-1], b);
    }
  }

  function RunFrom(k: Book, events: seq<Event>): Book {
    if events == [] then k else Apply(RunFrom(k, events[..|events|-1]), events[|events|-1])
  }

  // --- sum series -------------------------------------------------------------------------------------

  predicate SumAgrees(k: Book, b: int, s: seq<real>) {
    if k.head == NO_HEAD || b > k.head then s == []
    else if b == k.head then k.acc == Total(s)
    else if b in k.vals then k.vals[b] == Total(s) else s == []
  }

  lemma SumStep(k: Book, e: Event, b: int, s: seq<real>)
    requires k.agg == Sum && b >= 0 && SumAgrees(k, b, s) && (k.head == NO_HEAD || k.head >= 0)
    requires (k.head == NO_HEAD || b >= k.head) ==> b !in k.vals
    ensures SumAgrees(Apply(k, e), b, s + if e.Sample? && e.b == b then [e.v] else [])
  {
    hide Total;
    TotalOfNone();
    assert s + [] == s;
    if e.Sample? && e.b == b {
      TotalAppend(s, e.v);
      TotalOfOne(e.v);
      assert s == [] ==> s + [e.v] == [e.v];
    }
  }

  lemma {:induction false} SumRun(events: seq<Event>, b: int)
    requires b >= 0
    ensures SumAgrees(Run(Sum, events), b, SamplesOf(events, b))
  {
    if events != [] {
      var before, e := events[..|events|-1], events[|events|-1];
      SumRun(before, b);
      RunShape(Sum, before);
      var k := Run(Sum, before);
      if k.head == NO_HEAD || b >= k.head {
        NothingAhead(Sum, before, b);
      }
      SumStep(k, e, b, SamplesOf(before, b));
    }
  }

  /** After any run a closed bucket of a sum series holds the total of all its samples, however late
      they came; one without samples holds zero or, before the first bucket, nothing. */
  lemma ClosedSum(events: seq<Event>, b: int)
    requires 0 <= b < Run(Sum, events).head
    ensures var k, s := Run(Sum, events), SamplesOf(events, b);
      if b in k.vals then k.vals[b] == Total(s) else s == []
  {
    SumRun(events, b);
  }

  // --- arrival order ------------------------------------------------------------------------------------

  lemma {:induction false} TotalSplit(a: seq<real>, b: seq<real>)
    ensures Total(a + b) == Total(a) + Total(b)
  {
    if b == [] {
      assert a + b == a;
    } else {
      TotalSplit(a, b[..|b|-1]);
      assert a + b == (a + b[..|b|-1]) + [b[|b|-1]];
      TotalAppend(a + b[..|b|-1], b[|b|-1]);
    }
  }

  lemma TakeOut<T>(s: seq<T>, i: nat)
    requires i < |s|
    ensures multiset(s[..i] + s[i+1..]) == multiset(s) - multiset{s[i]}
  {
    assert s == s[..i] + [s[i]] + s[i+1..];
  }

  lemma {:induction false} TotalPermuted(a: seq<real>, b: seq<real>)
    requires multiset(a) == multiset(b)
    ensures Total(a) == Total(b) && |a| == |b|
  {
    if a == [] {
      assert |multiset(a)| == |multiset(b)|;
    } else {
      var init, v := a[..|a|-1], a[|a|-1];
      assert a == init + [v];
      assert v in multiset(a);
      var i :| 0 <= i < |b| && b[i] == v;
      var rest := b[..i] + b[i+1..];
      assert b == b[..i] + [v] + b[i+1..];
      TakeOut(b, i);
      assert multiset(init) == multiset(a) - multiset{v};
      TotalPermuted(init, rest);
      TotalSplit(b[..i], b[i+1..]);
      TotalSplit(b[..i] + [v], b[i+1..]);
      TotalAppend(b[..i], v);
    }
  }

  function Own(e: Event, b: int): seq<real> {
    if e.Sample? && e.b == b then [e.v] else []
  }

  lemma SamplesTaken(events: seq<Event>, i: nat, b: int)
    requires i < |events|
    ensures multiset(SamplesOf(events, b))
         == multiset(SamplesOf(events[..i] + events[i+1..], b)) + multiset(Own(events[i], b))
  {
    hide SamplesOf;
    var p, e, q := events[..i], events[i], events[i+1..];
    assert events == p + [e] + q;
    SamplesSplit(p + [e], q, b);
    SamplesSplit(p, [e], b);
    SamplesSplit(p, q, b);
    SamplesOfOne(e, b);
  }

  lemma SamplesOfOne(e: Event, b: int)
    ensures SamplesOf([e], b) == Own(e, b)
  {
    assert [e][..0] == [];
  }

  /** Permuting the events permutes the samples of each bucket. */
  lemma {:induction false} SamplesPermuted(e1: seq<Event>, e2: seq<Event>, b: int)
    requires multiset(e1) == multiset(e2)
    ensures multiset(SamplesOf(e1, b)) == multiset(SamplesOf(e2, b))
  {
    if e1 == [] {
      assert |multiset(e1)| == |multiset(e2)|;
    } else {
      hide SamplesOf;
      var k := |e1| - 1;
      var e := e1[k];
      assert e in multiset(e1);
      var i :| 0 <= i < |e2| && e2[i] == e;
      TakeOut(e1, k);
      TakeOut(e2, i);
      SamplesPermuted(e1[..k] + e1[k+1..], e2[..i] + e2[i+1..], b);
      SamplesTaken(e1, k, b);
      SamplesTaken(e2, i, b);
    }
  }

  lemma {:induction false} SamplesSplit(a: seq<Event>, c: seq<Event>, b: int)
    ensures SamplesOf(a + c, b) == SamplesOf(a, b) + SamplesOf(c, b)
  {
    if c == [] {
      assert a + c == a;
    } else {
      SamplesSplit(a, c[..|c|-1], b);
      assert (a + c)[..|a + c|-1] == a + c[..|c|-1];
    }
  }

  /** The same samples of bucket b came in both runs, which both closed it; for means, all on time. */
  predicate Comparable(agg: Agg, e1: seq<Event>, e2: seq<Event>, b: int) {
    && SamplesOf(e1, b) != [] && multiset(SamplesOf(e1, b)) == multiset(SamplesOf(e2, b))
    && 0 <= b < Run(agg, e1).head && b < Run(agg, e2).head
    && (agg == Mean ==> Arrived(agg, e1, b, false) == [] && Arrived(agg, e2, b, false) == [] && |SamplesOf(e1, b)| + 1 < COUNT_LIMIT)
  }

  /** Two arrival orders of the same samples of a bucket, whatever else happened, leave the same value
      in it once it is closed in both, when in both they all came on time; for sums, whenever they
      came. */
  lemma OrderIrrelevant(agg: Agg, e1: seq<Event>, e2: seq<Event>, b: int)
    ensures Comparable(agg, e1, e2, b) ==>
      b in Run(agg, e1).vals && b in Run(agg, e2).vals && Run(agg, e1).vals[b] == Run(agg, e2).vals[b]
  {
    if Comparable(agg, e1, e2, b) {
      TotalPermuted(SamplesOf(e1, b), SamplesOf(e2, b));
      if agg == Mean {
        AllOnTime(agg, e1, b);
        AllOnTime(agg, e2, b);
        ClosedMean(e1, b);
        ClosedMean(e2, b);
      } else {
        ClosedSum(e1, b);
        ClosedSum(e2, b);
      }
    }
  }
}
