/** Which buckets remote write delivered data for, kept in a ring of atomic slots that requests update
    without a lock while an evaluation reads it. A step is one atomic access of one request. */
module SeenRing {
  import opened Numbers
  import opened Options
  import Findings

  /** Where a request is. newest is the time in seconds of its newest sample so far, marked the last
      bucket it marked. */
  datatype Request =
    | Decoding(newest: int, marked: int)
    | Marking(newest: int, marked: int, b: int)                // about to read the slot of b
    | Swapping(newest: int, marked: int, b: int, was: int)     // has read it, about to compare and swap
    | Clocking(newest: int)                                    // decoded, about to read the data clock
    | ClockSwapping(newest: int, was: int)
    | Answered(newest: int, ok: bool)

  /** landed remembers the buckets whose marking is done, brought the times of the samples that each request has
      brought so far; nothing reads them. */
  datatype State = State(slots: seq<int>, clock: int, requests: seq<Request>, landed: set<int>, brought: seq<set<int>>)

  datatype Step =
    | Arrive
    | Sample(r: nat, sec: int)
    | ReadSlot(r: nat)
    | SwapSlot(r: nat)
    | Decoded(r: nat)
    | Malformed(r: nat)
    | ReadClock(r: nat)
    | SwapClock(r: nat)

  /** Step and grace are in seconds; a sample may be dated up to maxTS. */
  datatype Config = Config(step: int, grace: int, maxTS: int)

  const CATCH_UP: int := 3

  predicate Sane(c: Config) {
    c.step > 0 && c.grace >= 0
  }

  /** Quotients rounded up, and rounded toward zero. */
  function CeilDiv(a: int, b: int): int
    requires b > 0
  {
    -((-a) / b)
  }

  function Quo(a: int, b: int): int
    requires b > 0
  {
    if a >= 0 then a / b else -((-a) / b)
  }

  lemma Below(a: nat, b: int)
    requires b > 0
    ensures 0 <= a / b && 0 <= (a / b) * b <= a < (a / b) * b + b
  {
    var q := a / b;
    assert a == q * b + a % b;
    assert q >= 0;
  }

  lemma QuoTowardZero(a: int, b: int)
    requires b > 0
    ensures a >= 0 ==> 0 <= Quo(a, b) * b <= a < Quo(a, b) * b + b
    ensures a <= 0 ==> Quo(a, b) * b - b < a <= Quo(a, b) * b <= 0
  {
    Below(if a >= 0 then a else -a, b);
    assert a < 0 ==> Quo(a, b) * b == -(((-a) / b) * b);
  }

  function Slots(c: Config): (n: int)
    requires Sane(c)
    ensures n >= 67
  {
    CeilNonNegative(c.grace, c.step);
    CeilDiv(c.grace, c.step) + CATCH_UP + 64
  }

  lemma CeilNonNegative(a: int, b: int)
    requires a >= 0 && b > 0
    ensures CeilDiv(a, b) >= 0 && CeilDiv(a, b) * b >= a
  {
    var q := (-a) / b;
    assert -a == q * b + (-a) % b;
    assert q >= 1 ==> q * b >= b;
  }

  function Start(c: Config): State
    requires Sane(c)
  {
    State(seq(Slots(c), _ => 0), 0, [], {}, [])
  }

  /** Request r brings a sample of this time. */
  function Bring(s: State, r: nat, sec: int): State {
    if r < |s.brought| then s.(brought := s.brought[r := s.brought[r] + {sec}]) else s
  }

  function With(s: State, r: nat, q: Request): State
    requires r < |s.requests|
  {
    s.(requests := s.requests[r := q])
  }

  predicate Enabled(c: Config, s: State, step: Step) {
    if step.Arrive? then true
    else
      step.r < |s.requests| && match step
        case Sample(r, sec) => s.requests[r].Decoding? && sec <= c.maxTS
        case ReadSlot(r) => s.requests[r].Marking?
        case SwapSlot(r) => s.requests[r].Swapping?
        case Decoded(r) => s.requests[r].Decoding?
        case Malformed(r) => s.requests[r].Decoding?
        case ReadClock(r) => s.requests[r].Clocking?
        case SwapClock(r) => s.requests[r].ClockSwapping?
  }

  function After(c: Config, s: State, step: Step): State
    requires Sane(c) && |s.slots| > 0 && Enabled(c, s, step)
  {
    if step.Arrive? then s.(requests := s.requests + [Decoding(0, -1)], brought := s.brought + [{}])
    else
      var q, n := s.requests[step.r], |s.slots|;
      match step
      case Sample(r, sec) =>
        var bk, newest, s := Quo(sec, c.step), Max(q.newest, sec), Bring(s, r, sec);
        if bk != q.marked && bk > 0 then With(s, r, Marking(newest, bk, bk)) else With(s, r, Decoding(newest, q.marked))
      case ReadSlot(r) =>
        var was := s.slots[q.b % n];
        if was >= q.b then With(s, r, Decoding(q.newest, q.marked)).(landed := s.landed + {q.b})
        else With(s, r, Swapping(q.newest, q.marked, q.b, was))
      case SwapSlot(r) =>
        if s.slots[q.b % n] == q.was
        then With(s, r, Decoding(q.newest, q.marked)).(slots := s.slots[q.b % n := q.b], landed := s.landed + {q.b})
        else With(s, r, Marking(q.newest, q.marked, q.b))
      case Decoded(r) => With(s, r, Clocking(q.newest))
      case Malformed(r) => With(s, r, Answered(q.newest, false))
      case ReadClock(r) =>
        if q.newest <= s.clock then With(s, r, Answered(q.newest, true)) else With(s, r, ClockSwapping(q.newest, s.clock))
      case SwapClock(r) =>
        if s.clock == q.was then With(s, r, Answered(q.newest, true)).(clock := q.newest) else With(s, r, Clocking(q.newest))
  }

  /** The server has seen data for bucket b. */
  predicate Seen(s: State, b: int)
    requires |s.slots| > 0
  {
    b > 0 && s.slots[b % |s.slots|] == b
  }

  // --- invariant ------------------------------------------------------------------------------------

  predicate SlotOk(s: State, i: int)
    requires 0 <= i < |s.slots|
  {
    s.slots[i] == 0 || (s.slots[i] > 0 && s.slots[i] in s.landed && s.slots[i] % |s.slots| == i)
  }

  predicate LandedOk(s: State, b: int)
    requires |s.slots| > 0
  {
    b > 0 && s.slots[b % |s.slots|] >= b
  }

  predicate RequestOk(c: Config, s: State, q: Request)
    requires Sane(c)
  {
    && q.newest >= 0
    && (q.Marking? || q.Swapping? ==> 0 < q.b <= q.newest / c.step)
    && (q.Swapping? ==> q.was < q.b)
    && (q.ClockSwapping? ==> q.was < q.newest)
    && (q.Answered? && q.ok ==> q.newest <= s.clock)
  }

  /** Request r has a sample in bucket b or later. */
  predicate Reaches(c: Config, s: State, r: int, b: int)
    requires Sane(c)
  {
    0 <= r < |s.requests| && b <= s.requests[r].newest / c.step
  }

  ghost predicate Inv(c: Config, s: State) {
    && Sane(c) && |s.slots| == Slots(c) && s.clock >= 0
    && (forall i {:trigger SlotOk(s, i)} :: 0 <= i < |s.slots| ==> SlotOk(s, i))
    && (forall b {:trigger LandedOk(s, b)} :: b in s.landed ==> LandedOk(s, b))
    && (forall r {:trigger s.requests[r]} :: 0 <= r < |s.requests| ==> RequestOk(c, s, s.requests[r]))
    && (forall b :: b in s.landed ==> exists r :: Reaches(c, s, r, b))
  }

  lemma StartKeepsInv(c: Config)
    requires Sane(c)
    ensures Inv(c, Start(c))
  {
  }

  /** A request that moves on keeps or raises its newest sample, so whatever was reached stays reached. */
  lemma StillReached(c: Config, s: State, t: State, step: nat, b: int)
    requires Sane(c) && step < |s.requests| && |t.requests| == |s.requests|
    requires forall r :: 0 <= r < |s.requests| && r != step ==> t.requests[r] == s.requests[r]
    requires t.requests[step].newest >= s.requests[step].newest
    requires exists r :: Reaches(c, s, r, b)
    ensures exists r :: Reaches(c, t, r, b)
  {
    var r :| Reaches(c, s, r, b);
    DivisionMonotone(s.requests[step].newest, t.requests[step].newest, c.step);
    assert Reaches(c, t, r, b);
  }

  lemma SlotsAfterSwap(s: State, t: State, b: int)
    requires |s.slots| > 0 && b > 0 && s.slots[b % |s.slots|] < b
    requires forall i {:trigger SlotOk(s, i)} :: 0 <= i < |s.slots| ==> SlotOk(s, i)
    requires forall x {:trigger LandedOk(s, x)} :: x in s.landed ==> LandedOk(s, x)
    requires t.slots == s.slots[b % |s.slots| := b] && t.landed == s.landed + {b}
    ensures forall i {:trigger SlotOk(t, i)} :: 0 <= i < |t.slots| ==> SlotOk(t, i)
    ensures forall x {:trigger LandedOk(t, x)} :: x in t.landed ==> LandedOk(t, x)
  {
    forall i | 0 <= i < |t.slots| ensures SlotOk(t, i) {
      assert SlotOk(s, i);
    }
    forall x | x in t.landed ensures LandedOk(t, x) {
      if x in s.landed {
        assert LandedOk(s, x);
      }
    }
  }

  lemma StepKeepsInv(c: Config, s: State, step: Step)
    requires Inv(c, s) && Enabled(c, s, step)
    ensures Inv(c, After(c, s, step))
  {
    var t := After(c, s, step);
    if step.Arrive? {
      forall b | b in t.landed ensures exists r :: Reaches(c, t, r, b) {
        var r :| Reaches(c, s, r, b);
        assert Reaches(c, t, r, b);
      }
      forall i | 0 <= i < |t.slots| ensures SlotOk(t, i) {
        assert SlotOk(s, i);
      }
      forall b | b in t.landed ensures LandedOk(t, b) {
        assert LandedOk(s, b);
      }
    } else {
      var q := s.requests[step.r];
      assert RequestOk(c, s, q);
      StepKeepsRequests(c, s, step);
      StepKeepsSlots(c, s, step);
      forall b | b in t.landed ensures exists r :: Reaches(c, t, r, b) {
        if b in s.landed {
          StillReached(c, s, t, step.r, b);
        } else {
          assert Reaches(c, t, step.r, b);
        }
      }
    }
  }

  lemma StepKeepsSlots(c: Config, s: State, step: Step)
    requires Inv(c, s) && Enabled(c, s, step) && !step.Arrive?
    ensures var t := After(c, s, step);
      && |t.slots| == |s.slots|
      && (forall i {:trigger SlotOk(t, i)} :: 0 <= i < |t.slots| ==> SlotOk(t, i))
      && (forall b {:trigger LandedOk(t, b)} :: b in t.landed ==> LandedOk(t, b))
  {
    var t, q := After(c, s, step), s.requests[step.r];
    assert RequestOk(c, s, q);
    if step.SwapSlot? && s.slots[q.b % |s.slots|] == q.was {
      SlotsAfterSwap(s, t, q.b);
    } else {
      forall i | 0 <= i < |t.slots| ensures SlotOk(t, i) {
        assert SlotOk(s, i);
      }
      forall b | b in t.landed ensures LandedOk(t, b) {
        if b in s.landed {
          assert LandedOk(s, b);
        }
      }
    }
  }

  lemma StepKeepsRequests(c: Config, s: State, step: Step)
    requires Sane(c) && |s.slots| > 0 && Enabled(c, s, step) && !step.Arrive?
    requires forall r {:trigger s.requests[r]} :: 0 <= r < |s.requests| ==> RequestOk(c, s, s.requests[r])
    ensures var t := After(c, s, step);
      && t.clock >= s.clock && |t.requests| == |s.requests|
      && forall r {:trigger t.requests[r]} :: 0 <= r < |t.requests| ==> RequestOk(c, t, t.requests[r])
  {
    hide RequestOk, After;
    var t := After(c, s, step);
    StepKeepsRequest(c, s, step);
    forall r | 0 <= r < |t.requests| ensures RequestOk(c, t, t.requests[r]) {
      if r != step.r {
        assert t.requests[r] == s.requests[r];
        LaterClock(c, s, t, s.requests[r]);
      }
    }
  }

  lemma LaterClock(c: Config, s: State, t: State, q: Request)
    requires Sane(c) && RequestOk(c, s, q) && t.clock >= s.clock
    ensures RequestOk(c, t, q)
  {
  }

  lemma StepKeepsRequest(c: Config, s: State, step: Step)
    requires Sane(c) && |s.slots| > 0 && Enabled(c, s, step) && !step.Arrive?
    requires RequestOk(c, s, s.requests[step.r])
    ensures var t := After(c, s, step);
      && t.clock >= s.clock && |t.requests| == |s.requests| && RequestOk(c, t, t.requests[step.r])
      && forall r :: 0 <= r < |t.requests| && r != step.r ==> t.requests[r] == s.requests[r]
  {
    hide Quo;
    match step
    case Sample(r, sec) => SampleKeepsRequest(c, s.requests[r], sec);
    case ReadSlot(r) =>
    case SwapSlot(r) =>
    case Decoded(r) =>
    case Malformed(r) =>
    case ReadClock(r) =>
    case SwapClock(r) =>
  }

  /** The bucket of a sample is not past that of the newest one. */
  lemma SampleKeepsRequest(c: Config, q: Request, sec: int)
    requires Sane(c) && q.newest >= 0
    ensures Quo(sec, c.step) > 0 ==> Quo(sec, c.step) <= Max(q.newest, sec) / c.step
  {
    if sec >= 0 {
      DivisionMonotone(sec, Max(q.newest, sec), c.step);
    } else {
      QuoNegative(sec, c.step);
    }
  }

  lemma QuoNegative(a: int, d: int)
    requires a < 0 && d > 0
    ensures Quo(a, d) <= 0
  {
    var q := (-a) / d;
    assert -a == q * d + (-a) % d;
    assert q <= -1 ==> q * d <= -d;
  }

  function Run(c: Config, steps: seq<Step>): (s: State)
    requires Sane(c) && Feasible(c, steps)
    ensures |s.slots| == Slots(c)
    decreases |steps|, 1
  {
    if steps == [] then Start(c) else After(c, Run(c, steps[..|steps|-1]), steps[|steps|-1])
  }

  /** Every step can be taken in turn. */
  predicate Feasible(c: Config, steps: seq<Step>)
    requires Sane(c)
    decreases |steps|, 0
  {
    steps == [] || (Feasible(c, steps[..|steps|-1]) && Enabled(c, Run(c, steps[..|steps|-1]), steps[|steps|-1]))
  }

  lemma {:induction false} RunKeepsInv(c: Config, steps: seq<Step>)
    requires Sane(c) && Feasible(c, steps)
    ensures Inv(c, Run(c, steps))
  {
    if steps == [] {
      StartKeepsInv(c);
    } else {
      RunKeepsInv(c, steps[..|steps|-1]);
      StepKeepsInv(c, Run(c, steps[..|steps|-1]), steps[|steps|-1]);
    }
  }

  // --- exactness ------------------------------------------------------------------------------------

  /** At any time a bucket counts as seen exactly when its marking is done and no later bucket of the
      same slot was marked. */
  lemma SeenExactly(c: Config, s: State, b: int)
    requires Inv(c, s)
    ensures Seen(s, b) <==> b in s.landed && !exists m :: m in s.landed && m > b && m % |s.slots| == b % |s.slots|
  {
    var i := b % |s.slots|;
    assert SlotOk(s, i);
    if b in s.landed {
      assert LandedOk(s, b);
    }
    if m :| m in s.landed && m > b && m % |s.slots| == i {
      assert LandedOk(s, m);
    }
  }

  /** The oldest bucket that an evaluation at this data clock can look at. */
  function Oldest(c: Config, clock: int): int
    requires Sane(c)
  {
    Quo(clock - c.grace, c.step) - CATCH_UP
  }

  /** Evaluating the buckets before the open one looks at none that is older. */
  lemma OldestIs(c: Config, clock: int, lastEval: int)
    requires Sane(c)
    ensures Findings.Start(lastEval, Quo(clock - c.grace, c.step) - 1) >= Oldest(c, clock)
    ensures lastEval < Oldest(c, clock) ==> Findings.Start(lastEval, Quo(clock - c.grace, c.step) - 1) == Oldest(c, clock)
  {
  }

  /** One round of the ring from the oldest bucket of an evaluation reaches 64 buckets past the data clock. */
  lemma RingReach(c: Config, clock: int)
    requires Sane(c) && clock >= 0
    ensures Oldest(c, clock) + Slots(c) >= clock / c.step + 64
  {
    var d, x, g := c.step, clock - c.grace, CeilDiv(c.grace, c.step);
    CeilNonNegative(c.grace, d);
    assert clock == (clock / d) * d + clock % d;
    var q := Quo(x, d);
    assert q * d + d > x by {
      if x >= 0 {
        assert x == (x / d) * d + x % d;
      } else {
        assert -x == ((-x) / d) * d + (-x) % d;
      }
    }
    var e := q + g - clock / d;
    assert e * d + d > 0;
    assert e <= -1 ==> e * d + d <= 0;
  }

  /** Seen is exact for every bucket that an evaluation with this data clock can look at, so long as no
      request has so far marked a bucket 64 or more past that clock. */
  lemma SeenWhenEvaluated(c: Config, s: State, clock: int, b: int)
    requires Inv(c, s) && clock >= 0 && b > 0 && b >= Oldest(c, clock)
    requires forall m :: m in s.landed ==> m < clock / c.step + 64
    ensures Seen(s, b) <==> b in s.landed
  {
    SeenExactly(c, s, b);
    RingReach(c, clock);
    if m :| m in s.landed && m > b && m % |s.slots| == b % |s.slots| {
      SameRemainder(b, m, |s.slots|);
    }
  }

  /** Only a request that is still running, or was malformed, can have marked a bucket past the clock. */
  lemma AheadIsUnanswered(c: Config, s: State, m: int) returns (r: nat)
    requires Inv(c, s) && m in s.landed && m > s.clock / c.step
    ensures r < |s.requests| && m <= s.requests[r].newest / c.step
    ensures !(s.requests[r].Answered? && s.requests[r].ok)
  {
    r :| Reaches(c, s, r, m);
    assert RequestOk(c, s, s.requests[r]);
    if s.requests[r].Answered? && s.requests[r].ok {
      DivisionMonotone(s.requests[r].newest, s.clock, c.step);
    }
  }

  /** So for an evaluation that loaded this data clock, however long ago, seen is exact whenever no request
      so far, answered or not, has a sample 64 or more buckets past it. */
  lemma SeenWhenCalm(c: Config, s: State, clock: int, b: int)
    requires Inv(c, s) && clock >= 0 && b > 0 && b >= Oldest(c, clock)
    requires forall q :: q in s.requests ==> q.newest / c.step < clock / c.step + 64
    ensures Seen(s, b) <==> b in s.landed
  {
    forall m | m in s.landed ensures m < clock / c.step + 64 {
      var r :| Reaches(c, s, r, m);
      assert s.requests[r] in s.requests;
    }
    SeenWhenEvaluated(c, s, clock, b);
  }

  /** While the clock still is the one the evaluation loaded, only running and malformed requests matter. */
  lemma SeenWhileClockStands(c: Config, s: State, b: int)
    requires Inv(c, s) && b > 0 && b >= Oldest(c, s.clock)
    requires forall q :: q in s.requests && !(q.Answered? && q.ok) ==> q.newest / c.step < s.clock / c.step + 64
    ensures Seen(s, b) <==> b in s.landed
  {
    forall m | m in s.landed ensures m < s.clock / c.step + 64 {
      if m > s.clock / c.step {
        var r := AheadIsUnanswered(c, s, m);
        assert s.requests[r] in s.requests;
      }
    }
    SeenWhenEvaluated(c, s, s.clock, b);
  }

  // --- in terms of the samples ------------------------------------------------------------------------

  /** Request r has brought a sample of this time, which is in bucket b. */
  predicate Brings(c: Config, s: State, r: int, sec: int, b: int)
    requires Sane(c)
  {
    0 <= r < |s.brought| && sec in s.brought[r] && sec / c.step == b
  }

  ghost predicate Delivered(c: Config, s: State, b: int)
    requires Sane(c)
  {
    exists r, sec {:trigger Brings(c, s, r, sec, b)} :: Brings(c, s, r, sec, b)
  }

  /** Is the request still marking bucket b? */
  predicate Marks(q: Request, b: int) {
    (q.Marking? || q.Swapping?) && q.b == b
  }

  /** Request r has marked the positive buckets of all samples it has brought, but perhaps the one it is at; it is at
      none that it has not brought, and newest is the time of its newest sample. */
  predicate Thorough(c: Config, s: State, r: int)
    requires Sane(c) && 0 <= r < |s.requests| && |s.brought| == |s.requests|
  {
    var q, secs := s.requests[r], s.brought[r];
    && (forall sec :: sec in secs ==> sec <= q.newest)
    && (forall sec :: sec in secs && sec / c.step > 0 ==> sec / c.step in s.landed || Marks(q, sec / c.step))
    && (q.newest == 0 || q.newest in secs)
    && (q.Decoding? && q.marked > 0 ==> q.marked in s.landed)
    && (q.Marking? || q.Swapping? ==> q.marked == q.b && exists sec {:trigger sec in secs} :: sec in secs && sec / c.step == q.b)
  }

  /** The data clock is the time of the newest sample of an answered request. */
  predicate Clocks(s: State, r: int) {
    0 <= r < |s.requests| && s.requests[r].Answered? && s.requests[r].ok && s.requests[r].newest == s.clock
  }

  ghost predicate Carried(c: Config, s: State)
    requires Sane(c)
  {
    && |s.brought| == |s.requests| && |s.slots| > 0
    && (forall r {:trigger Thorough(c, s, r)} :: 0 <= r < |s.requests| ==> Thorough(c, s, r))
    && (forall b {:trigger Delivered(c, s, b)} :: b in s.landed ==> Delivered(c, s, b))
    && (s.clock == 0 || exists r :: Clocks(s, r))
  }

  lemma StartCarries(c: Config)
    requires Sane(c)
    ensures Carried(c, Start(c))
  {
  }

  /** Samples, marked buckets and answers are never taken back. */
  lemma StepAdds(c: Config, s: State, step: Step)
    requires Sane(c) && Carried(c, s) && Enabled(c, s, step)
    ensures var t := After(c, s, step);
      && |t.brought| == |t.requests| >= |s.requests| && |t.slots| == |s.slots| && s.landed <= t.landed
      && (forall r :: 0 <= r < |s.requests| ==> s.brought[r] <= t.brought[r])
      && (forall r :: 0 <= r < |s.requests| && !(!step.Arrive? && r == step.r) ==>
            t.requests[r] == s.requests[r] && t.brought[r] == s.brought[r])
  {
    hide Quo;
  }

  lemma QuoPositive(a: int, d: int)
    requires d > 0
    ensures Quo(a, d) > 0 <==> a / d > 0
    ensures Quo(a, d) > 0 ==> Quo(a, d) == a / d
  {
    if a < 0 {
      QuoNegative(a, d);
      DivisionMonotone(a, -1, d);
      Division(-1, -1, d);
    }
  }

  lemma StepKeepsThorough(c: Config, s: State, step: Step)
    requires Sane(c) && Carried(c, s) && Enabled(c, s, step) && !step.Arrive?
    requires RequestOk(c, s, s.requests[step.r])
    ensures |After(c, s, step).brought| == |After(c, s, step).requests| && Thorough(c, After(c, s, step), step.r)
  {
    hide Quo, Delivered;
    StepAdds(c, s, step);
    assert Thorough(c, s, step.r);
    match step
    case Sample(r, sec) => SampleKeepsThorough(c, s, r, sec);
    case ReadSlot(r) =>
    case SwapSlot(r) =>
    case Decoded(r) =>
    case Malformed(r) =>
    case ReadClock(r) =>
    case SwapClock(r) =>
  }

  lemma SampleKeepsThorough(c: Config, s: State, r: nat, sec: int)
    requires Sane(c) && Carried(c, s) && Enabled(c, s, Sample(r, sec)) && RequestOk(c, s, s.requests[r])
    ensures var t := After(c, s, Sample(r, sec)); |t.brought| == |t.requests| && Thorough(c, t, r)
  {
    hide Quo, Delivered;
    assert Thorough(c, s, r);
    QuoPositive(sec, c.step);
    var t := After(c, s, Sample(r, sec));
    assert sec in t.brought[r];
  }

  lemma StillDelivered(c: Config, s: State, t: State, b: int)
    requires Sane(c) && |s.brought| <= |t.brought| && forall r :: 0 <= r < |s.brought| ==> s.brought[r] <= t.brought[r]
    requires Delivered(c, s, b)
    ensures Delivered(c, t, b)
  {
    var r, sec :| Brings(c, s, r, sec, b);
    assert Brings(c, t, r, sec, b);
  }

  lemma StepKeepsClock(c: Config, s: State, step: Step)
    requires Sane(c) && Carried(c, s) && Enabled(c, s, step)
    ensures var t := After(c, s, step); t.clock == 0 || exists r :: Clocks(t, r)
  {
    hide Thorough, Delivered, Quo;
    var t := After(c, s, step);
    if t.clock != s.clock {
      assert Clocks(t, step.r);
    } else if s.clock != 0 {
      var r :| Clocks(s, r);
      assert Clocks(t, r);
    }
  }

  lemma StepCarries(c: Config, s: State, step: Step)
    requires Inv(c, s) && Carried(c, s) && Enabled(c, s, step)
    ensures Carried(c, After(c, s, step))
  {
    hide After, Delivered, Thorough, Enabled;
    var t := After(c, s, step);
    StepAdds(c, s, step);
    StepKeepsClock(c, s, step);
    if step.Arrive? {
      NewIsThorough(c, s);
    } else {
      StepInRange(c, s, step);
      assert RequestOk(c, s, s.requests[step.r]);
      StepKeepsThorough(c, s, step);
    }
    forall r | 0 <= r < |t.requests| ensures Thorough(c, t, r) {
      if r < |s.requests| && !(!step.Arrive? && r == step.r) {
        assert Thorough(c, s, r);
        SameThorough(c, s, t, r);
      }
    }
    forall b | b in t.landed ensures Delivered(c, t, b) {
      if b in s.landed {
        StillDelivered(c, s, t, b);
      } else {
        StepLands(c, s, step, b);
        assert Thorough(c, s, step.r);
        MarkedIsDelivered(c, s, step.r, b);
        StillDelivered(c, s, t, b);
      }
    }
  }

  lemma StepInRange(c: Config, s: State, step: Step)
    requires Enabled(c, s, step) && !step.Arrive?
    ensures step.r < |s.requests| && |After(c, s, step).requests| == |s.requests|
    requires Sane(c) && |s.slots| > 0
  {
    hide Quo;
  }

  lemma NewIsThorough(c: Config, s: State)
    requires Sane(c) && Carried(c, s)
    ensures var t := After(c, s, Arrive);
      |t.requests| == |s.requests| + 1 && |t.brought| == |t.requests| && Thorough(c, t, |s.requests|) && t.landed == s.landed
  {
  }

  lemma SameThorough(c: Config, s: State, t: State, r: int)
    requires Sane(c) && 0 <= r < |s.requests| <= |t.requests| && |s.brought| == |s.requests| && |t.brought| == |t.requests|
    requires t.requests[r] == s.requests[r] && t.brought[r] == s.brought[r] && s.landed <= t.landed && Thorough(c, s, r)
    ensures Thorough(c, t, r)
  {
  }

  lemma StepLands(c: Config, s: State, step: Step, b: int)
    requires Sane(c) && |s.slots| > 0 && Enabled(c, s, step) && b in After(c, s, step).landed && b !in s.landed
    ensures !step.Arrive? && Marks(s.requests[step.r], b)
  {
    hide Quo;
  }

  lemma MarkedIsDelivered(c: Config, s: State, r: nat, b: int)
    requires Sane(c) && r < |s.requests| && |s.brought| == |s.requests| && Thorough(c, s, r) && Marks(s.requests[r], b)
    ensures Delivered(c, s, b)
  {
    var sec :| sec in s.brought[r] && sec / c.step == b;
    assert Brings(c, s, r, sec, b);
  }

  lemma {:induction false} RunCarries(c: Config, steps: seq<Step>)
    requires Sane(c) && Feasible(c, steps)
    ensures Carried(c, Run(c, steps))
  {
    hide Carried, After, Enabled, Inv;
    if steps == [] {
      StartCarries(c);
    } else {
      RunKeepsInv(c, steps[..|steps|-1]);
      RunCarries(c, steps[..|steps|-1]);
      StepCarries(c, Run(c, steps[..|steps|-1]), steps[|steps|-1]);
    }
  }

  /** A request that is not yet answered can go on, and it is answered well exactly if it was not malformed. */
  lemma Answers(c: Config, s: State, step: Step, r: nat)
    requires Inv(c, s) && r < |s.requests| && !s.requests[r].Answered?
    ensures exists next: Step {:trigger Enabled(c, s, next)} :: Enabled(c, s, next) && !next.Arrive? && next.r == r
    ensures Enabled(c, s, step) && After(c, s, step).requests[r].Answered? ==>
      (After(c, s, step).requests[r].ok <==> step != Malformed(r))
  {
    hide Quo, Inv;
    match s.requests[r]
    case Decoding(_, _) => assert Enabled(c, s, Decoded(r));
    case Marking(_, _, _) => assert Enabled(c, s, ReadSlot(r));
    case Swapping(_, _, _, _) => assert Enabled(c, s, SwapSlot(r));
    case Clocking(_) => assert Enabled(c, s, ReadClock(r));
    case ClockSwapping(_, _) => assert Enabled(c, s, SwapClock(r));
  }

  /** Over any run: the buckets that count as marked are buckets of samples, and every positive bucket of a sample
      counts as marked unless its request is marking it just now. */
  lemma LandedIsDelivered(c: Config, steps: seq<Step>, b: int)
    requires Sane(c) && Feasible(c, steps) && b > 0
    ensures var s := Run(c, steps);
      && |s.brought| == |s.requests| && (b in s.landed ==> Delivered(c, s, b))
      && forall r, sec :: Brings(c, s, r, sec, b) && !Marks(s.requests[r], b) ==> b in s.landed
  {
    hide Run, Feasible;
    RunCarries(c, steps);
    var s := Run(c, steps);
    forall r, sec | Brings(c, s, r, sec, b) && !Marks(s.requests[r], b) ensures b in s.landed {
      assert Thorough(c, s, r);
    }
  }

  /** So after any run, for an evaluation that loaded this data clock and as long as no request has brought a sample
      64 or more buckets past it: a bucket counts as seen only if a request brought a sample in it, and it does
      once such a request has marked it, and so has answered. */
  lemma SeenIsDelivered(c: Config, steps: seq<Step>, clock: int, b: int)
    requires Sane(c) && Feasible(c, steps) && clock >= 0 && b > 0 && b >= Oldest(c, clock)
    requires forall m :: Delivered(c, Run(c, steps), m) ==> m < clock / c.step + 64
    ensures var s := Run(c, steps);
      && |s.brought| == |s.requests| && |s.slots| > 0
      && (Seen(s, b) ==> Delivered(c, s, b))
      && (forall r, sec :: Brings(c, s, r, sec, b) && !Marks(s.requests[r], b) ==> Seen(s, b))
      && ((forall q :: q in s.requests ==> q.Answered?) ==> (Seen(s, b) <==> Delivered(c, s, b)))
  {
    hide Run, Feasible, Inv, Thorough;
    var s := Run(c, steps);
    RunCarries(c, steps);
    LandedIsDelivered(c, steps, b);
    RunKeepsInv(c, steps);
    forall m | m in s.landed ensures m < clock / c.step + 64 {
      assert Delivered(c, s, m);
    }
    SeenWhenEvaluated(c, s, clock, b);
    if Delivered(c, s, b) && forall q :: q in s.requests ==> q.Answered? {
      var r, sec :| Brings(c, s, r, sec, b);
      assert s.requests[r] in s.requests;
    }
  }

  // --- the bound is tight ---------------------------------------------------------------------------

  lemma Then(c: Config, steps: seq<Step>, step: Step) returns (more: seq<Step>)
    requires Sane(c) && Feasible(c, steps) && Enabled(c, Run(c, steps), step)
    ensures Feasible(c, more) && Run(c, more) == After(c, Run(c, steps), step) && steps <= more
  {
    more := steps + [step];
    assert more[..|more|-1] == steps;
  }

  /** A request that marks the bucket of one sample undisturbed. */
  lemma ThenMark(c: Config, steps: seq<Step>, r: nat, sec: int) returns (more: seq<Step>)
    requires Sane(c) && Feasible(c, steps) && c.step == 1 && 0 < sec <= c.maxTS
    requires var s := Run(c, steps);
      r < |s.requests| && s.requests[r].Decoding? && s.requests[r].newest < sec && s.requests[r].marked < sec
      && s.slots[sec % |s.slots|] < sec
    ensures Feasible(c, more)
    ensures var s, t := Run(c, steps), Run(c, more);
      && t.slots == s.slots[sec % |s.slots| := sec] && t.landed == s.landed + {sec} && t.clock == s.clock
      && t.requests == s.requests[r := Decoding(sec, sec)] && steps <= more
  {
    hide Run, Feasible;
    more := Then(c, steps, Sample(r, sec));
    more := Then(c, more, ReadSlot(r));
    more := Then(c, more, SwapSlot(r));
  }

  lemma ThenAnswer(c: Config, steps: seq<Step>, r: nat) returns (more: seq<Step>)
    requires Sane(c) && Feasible(c, steps)
    requires var s := Run(c, steps); r < |s.requests| && s.requests[r].Decoding? && s.requests[r].newest > s.clock
    ensures Feasible(c, more)
    ensures var s, t := Run(c, steps), Run(c, more);
      t == s.(clock := s.requests[r].newest, requests := s.requests[r := Answered(s.requests[r].newest, true)]) && steps <= more
  {
    hide Run, Feasible;
    more := Then(c, steps, Decoded(r));
    more := Then(c, more, ReadClock(r));
    more := Then(c, more, SwapClock(r));
  }

  lemma ThenArrive(c: Config, steps: seq<Step>) returns (more: seq<Step>)
    requires Sane(c) && Feasible(c, steps)
    ensures Feasible(c, more) && steps <= more
    ensures var s := Run(c, steps);
      Run(c, more) == s.(requests := s.requests + [Decoding(0, -1)], brought := s.brought + [{}])
  {
    hide Run, Feasible;
    more := Then(c, steps, Arrive);
  }

  lemma AtStart(c: Config)
    requires c == Config(1, 0, 68)
    ensures Feasible(c, []) && Run(c, []).requests == [] && Run(c, []).landed == {} && Run(c, []).clock == 0
    ensures Slots(c) == 67 && |Run(c, []).slots| == 67 && forall i :: 0 <= i < 67 ==> Run(c, []).slots[i] == 0
  {
  }

  /** One request brings samples for the buckets 1 and 4. */
  lemma TwoBuckets(c: Config) returns (steps: seq<Step>)
    requires c == Config(1, 0, 68)
    ensures Feasible(c, steps)
    ensures var s := Run(c, steps);
      |s.slots| == 67 && s.slots[1] == 1 && s.clock == 4 && s.landed == {1, 4} && s.requests == [Answered(4, true)]
  {
    hide Run, Feasible, Slots, Inv, After, Enabled, Start;
    AtStart(c);
    steps := ThenArrive(c, []);
    steps := ThenMark(c, steps, 0, 1);
    steps := ThenMark(c, steps, 0, 4);
    steps := ThenAnswer(c, steps, 0);
  }

  /** With a running request just 64 buckets ahead, a bucket that is still to be evaluated and that had
      data can count as not seen. */
  lemma SeenCanBeLost() returns (c: Config, steps: seq<Step>)
    ensures Sane(c) && Feasible(c, steps)
    ensures var s := Run(c, steps);
      && 1 >= Oldest(c, s.clock) && 1 in s.landed && !Seen(s, 1)
      && forall m :: m in s.landed ==> m <= s.clock / c.step + 64
  {
    c := Config(1, 0, 68);
    steps := TwoBuckets(c);
    hide Run, Feasible, Inv, After, Enabled;
    steps := ThenArrive(c, steps);
    steps := ThenMark(c, steps, 1, 68);
  }

  /** Then a second request brings a sample for bucket 68 and is answered. */
  lemma ThenAhead(c: Config, before: seq<Step>) returns (after: seq<Step>)
    requires c == Config(1, 0, 68) && Feasible(c, before)
    requires var s := Run(c, before);
      |s.slots| == 67 && s.slots[1] == 1 && s.clock == 4 && s.landed == {1, 4} && s.requests == [Answered(4, true)]
    ensures Feasible(c, after) && before <= after
    ensures var s := Run(c, after);
      && |s.slots| == 67 && s.slots[1] == 68 && s.clock == 68 && s.landed == {1, 4, 68}
      && s.requests == [Answered(4, true), Answered(68, true)]
  {
    hide Run, Feasible, Inv, After, Enabled, Slots;
    after := ThenArrive(c, before);
    after := ThenMark(c, after, 1, 68);
    after := ThenAnswer(c, after, 1);
  }

  /** And so it can with an answered one: the evaluation loads clock 4 when bucket 1 has data, then a request
      for bucket 68 is answered, and bucket 1 no longer counts as seen when it is looked up. */
  lemma SeenCanBeLostToAnswered() returns (c: Config, before: seq<Step>, after: seq<Step>)
    ensures Sane(c) && Feasible(c, before) && Feasible(c, after) && before <= after
    ensures var clock, s := Run(c, before).clock, Run(c, after);
      && 1 >= Oldest(c, clock) && Seen(Run(c, before), 1) && 1 in s.landed && !Seen(s, 1)
      && forall q :: q in s.requests ==> q.Answered? && q.ok && q.newest / c.step <= clock / c.step + 64
  {
    hide Run, Feasible, Inv, After, Enabled, Slots;
    c := Config(1, 0, 68);
    before := TwoBuckets(c);
    after := ThenAhead(c, before);
  }
}
