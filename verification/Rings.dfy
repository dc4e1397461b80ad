/** One ring buffer of bucket values, with an open bucket and a second ring of recent sample counts.
    It shows the last n buckets of the unbounded book that the same calls would keep. */
module Rings {
  import opened Numbers
  import opened Options
  import opened Buckets

  /** The slot of bucket b in a ring of n slots. */
  function Slot(b: nat, n: nat): (i: nat)
    requires n > 0
    ensures i < n
  {
    b % n
  }

  lemma SlotShift(b: nat, n: nat)
    requires n > 0
    ensures Slot(b + n, n) == Slot(b, n)
  {
    assert b == (b / n) * n + b % n;
    Division(b + n, b / n + 1, n);
  }

  /** Two buckets less than n apart have different slots. */
  lemma SlotsDiffer(a: nat, b: nat, n: nat)
    requires n > 0 && a < b < a + n
    ensures Slot(a, n) != Slot(b, n)
  {
    if Slot(a, n) == Slot(b, n) {
      SameRemainder(a, b, n);
    }
  }

  /** Every slot is hit by one of any n buckets in a row. */
  lemma {:induction false} SlotHit(b: nat, from: nat, n: nat) returns (x: nat)
    requires n > 0 && b >= from
    ensures from <= x < from + n && Slot(x, n) == Slot(b, n)
    decreases b - from
  {
    if b < from + n {
      x := b;
    } else {
      SlotShift(b - n, n);
      x := SlotHit(b - n, from, n);
    }
  }

  function Lookup(k: Book, b: int): Option<real> {
    if b in k.vals then Some(k.vals[b]) else None
  }

  function Closed(k: Book): Option<real> {
    if k.agg == Sum then Some(k.acc) else if k.cnt == 0 then None else Some(k.acc / k.cnt as real)
  }

  /** Closing the open bucket of a book changes that bucket and the gap after it. */
  lemma AdvancedAt(k: Book, b: int, y: int)
    requires k.head != NO_HEAD && k.head < b && y < b && k.head !in k.vals
    requires forall x :: x in k.vals || x in k.late ==> x < k.head
    ensures Lookup(Buckets.Advance(k, b), y)
         == if y < k.head then Lookup(k, y) else if y == k.head then Closed(k) else if k.agg == Sum then Some(0.0) else None
    ensures LateCount(Buckets.Advance(k, b), y) == if y < k.head then LateCount(k, y) else if y == k.head then k.cnt else 0
  {
  }

  lemma Advanced(k: Book, b: int)
    requires k.head != NO_HEAD && 0 <= k.head < b
    requires forall x :: x in k.vals || x in k.late ==> 0 <= x < k.head
    ensures var a := Buckets.Advance(k, b);
      && a.agg == k.agg && a.head == b && a.acc == 0.0 && a.cnt == 0
      && forall x :: x in a.vals || x in a.late ==> 0 <= x < b
  {
  }

  /** The buckets that a ring of n slots still holds when head is its open bucket. */
  function Newest(vals: map<int, real>, head: int, n: int): map<int, real> {
    map b | b in vals && b > head - n :: vals[b]
  }

  class Series {
    const agg: Agg
    const n: nat
    const vals: array<Option<real>>
    const late: array<nat>
    var head: int
    var acc: real
    var cnt: nat
    /** The unbounded book of the same calls. */
    ghost var book: Book

    ghost predicate InRing(b: int)
      reads this
    {
      0 <= b < head && b > head - n
    }

    /** A closed bucket of the ring holds what the book holds. */
    ghost predicate Shows(b: int)
      reads this, vals
      requires n > 0 && vals.Length == n && b >= 0
    {
      vals[Slot(b, n)] == Lookup(book, b)
    }

    ghost predicate Counts(b: int)
      reads this, late
      requires late.Length == LATE_WIN && b >= 0
    {
      late[Slot(b, LATE_WIN)] == LateCount(book, b)
    }

    ghost predicate Valid()
      reads this, vals, late
    {
      && n > 0 && vals.Length == n && late.Length == LATE_WIN
      && book.agg == agg && book.head == head && book.acc == acc && book.cnt == cnt
      && (head == NO_HEAD || head >= 0)
      && (forall b {:trigger Shows(b)} :: InRing(b) ==> Shows(b))
      && (forall b {:trigger Counts(b)} :: InRing(b) && b >= head - LATE_WIN ==> Counts(b))
      && (head == NO_HEAD ==> (forall i :: 0 <= i < n ==> vals[i] == None) && (forall i :: 0 <= i < LATE_WIN ==> late[i] == 0))
      && (head == NO_HEAD ==> book.vals == map[] && book.late == map[])
      && (forall b :: b in book.vals || b in book.late ==> 0 <= b < head)
    }

    /** The closed buckets that the ring still holds. */
    ghost function Points(): (r: map<int, real>)
      reads this
    {
      Newest(book.vals, head, n)
    }

    constructor (agg: Agg, capacity: nat)
      requires capacity > 0
      ensures Valid() && book == Empty(agg) && n == capacity && fresh(vals) && fresh(late)
    {
      this.agg, n := agg, capacity;
      vals := new Option<real>[capacity](_ => None);
      late := new nat[LATE_WIN](_ => 0);
      head, acc, cnt := NO_HEAD, 0.0, 0;
      book := Empty(agg);
    }

    /** The final value of bucket b, None if unknown, open or out of range. */
    function At(b: int): (v: Option<real>)
      requires Valid()
      reads this, vals, late
      ensures v == if InRing(b) then Lookup(book, b) else None
    {
      if head == NO_HEAD || b < 0 || b >= head || b <= head - n then None
      else
        assert Shows(b);
        vals[Slot(b, n)]
    }

    /** Closes buckets up to b - 1 and opens b. Gaps become missing, or zero for sums. */
    method Advance(b: int)
      requires Valid()
      modifies `head, `acc, `cnt, `book, vals, late
      ensures Valid() && book == Buckets.Advance(old(book), b)
    {
      if head == NO_HEAD || b <= head {
        return;
      }
      ghost var h := head;
      vals[Slot(head, n)] := Final();
      late[Slot(head, LATE_WIN)] := cnt;
      ClearCounts(late, if head + 1 > b - LATE_WIN then head + 1 else b - LATE_WIN, b);
      FillGap(vals, head, b, if agg == Sum then Some(0.0) else None);
      head, acc, cnt := b, 0.0, 0;
      book := Buckets.Advance(book, b);
      Advanced(old(book), b);
      hide Slot, Buckets.Advance;
      forall y | InRing(y) ensures Shows(y) {
        AdvancedAt(old(book), b, y);
        assert y < h ==> old(Shows(y));
        if y < h {
          SlotsDiffer(y, h, n);
        }
      }
      forall y | InRing(y) && y >= head - LATE_WIN ensures Counts(y) {
        AdvancedAt(old(book), b, y);
        if y < h {
          assert old(Counts(y));
          SlotsDiffer(y, h, LATE_WIN);
        }
      }
    }

    /** Sets the counts of buckets from up to b - 1 to zero, those of the buckets before stay. */
    static method ClearCounts(late: array<nat>, from: int, b: int)
      requires late.Length == LATE_WIN && 0 <= from <= b && b - LATE_WIN <= from
      modifies late
      ensures forall y: nat {:trigger Slot(y, LATE_WIN)} :: b - LATE_WIN <= y < b ==>
        late[Slot(y, LATE_WIN)] == if from <= y then 0 else old(late[Slot(y, LATE_WIN)])
    {
      for x := from to b
        invariant forall y: nat {:trigger Slot(y, LATE_WIN)} :: b - LATE_WIN <= y < b ==>
          late[Slot(y, LATE_WIN)] == if from <= y < x then 0 else old(late[Slot(y, LATE_WIN)])
      {
        hide Slot;
        forall y: nat | b - LATE_WIN <= y < b && y != x ensures Slot(y, LATE_WIN) != Slot(x, LATE_WIN) {
          if y < x {
            SlotsDiffer(y, x, LATE_WIN);
          } else {
            SlotsDiffer(x, y, LATE_WIN);
          }
        }
        late[Slot(x, LATE_WIN)] := 0;
      }
    }

    /** Puts gap into every bucket between h and b that the ring still holds, at most one round. */
    static method FillGap(vals: array<Option<real>>, h: nat, b: int, gap: Option<real>)
      requires vals.Length > 0 && h < b
      modifies vals
      ensures forall y: nat {:trigger Slot(y, vals.Length)} :: b - vals.Length < y < b ==>
        vals[Slot(y, vals.Length)] == if y > h then gap else old(vals[Slot(y, vals.Length)])
    {
      var n, x, i := vals.Length, h + 1, 0;
      while x < b && i < n
        invariant x == h + 1 + i && x <= b && i <= n
        invariant forall y: nat {:trigger Slot(y, n)} :: h < y < x ==> vals[Slot(y, n)] == gap
        invariant forall y: nat {:trigger Slot(y, n)} :: x - 1 - n < y <= h ==> vals[Slot(y, n)] == old(vals[Slot(y, n)])
      {
        hide Slot;
        forall y: nat | x - n < y < x ensures Slot(y, n) != Slot(x, n) {
          SlotsDiffer(y, x, n);
        }
        vals[Slot(x, n)] := gap;
        x, i := x + 1, i + 1;
      }
      hide Slot;
      forall y: nat | b - n < y < b && y > h ensures vals[Slot(y, n)] == gap {
        if y >= x {
          var z := SlotHit(y, h + 1, n);
        }
      }
    }

    function Final(): (v: Option<real>)
      reads this
    {
      if agg == Sum then Some(acc) else if cnt == 0 then None else Some(acc / cnt as real)
    }

    /** Puts one sample into bucket b. */
    method Add(b: int, v: real)
      requires Valid()
      modifies `head, `acc, `cnt, `book, vals, late
      ensures Valid() && book == Buckets.Add(old(book), b, v)
    {
      if b < 0 {
      } else if head == NO_HEAD {
        head, acc, cnt := b, v, 1;
        book := Buckets.Add(book, b, v);
        forall y | InRing(y) ensures Shows(y) && (y >= head - LATE_WIN ==> Counts(y)) {}
      } else if b == head {
        acc, cnt := acc + v, Wrap(cnt + 1);
        book := Buckets.Add(book, b, v);
        forall y | InRing(y) ensures Shows(y) && (y >= head - LATE_WIN ==> Counts(y)) {
          assert old(Shows(y)) && (y >= head - LATE_WIN ==> old(Counts(y)));
        }
      } else if b > head {
        Advance(b);
        Open(v);
      } else if b > head - n {
        AddClosed(b, v);
      } else {
        book := Buckets.Add(book, b, v);
        forall y | InRing(y) ensures Shows(y) && (y >= head - LATE_WIN ==> Counts(y)) {
          assert old(Shows(y)) && (y >= head - LATE_WIN ==> old(Counts(y)));
        }
      }
    }

    /** The first sample of a bucket that was just opened. */
    method Open(v: real)
      requires Valid() && head != NO_HEAD
      modifies `acc, `cnt, `book
      ensures Valid() && book == old(book).(acc := v, cnt := 1)
    {
      acc, cnt := v, 1;
      book := book.(acc := v, cnt := 1);
      forall y | InRing(y) ensures Shows(y) && (y >= head - LATE_WIN ==> Counts(y)) {
        assert old(Shows(y)) && (y >= head - LATE_WIN ==> old(Counts(y)));
      }
    }

    /** A late sample for a closed bucket that the ring still holds. */
    method AddClosed(b: int, v: real)
      requires Valid() && InRing(b)
      modifies `book, vals, late
      ensures Valid() && book == Buckets.AddLate(old(book), b, v)
    {
      assert Shows(b) && (b >= head - LATE_WIN ==> Counts(b));
      var i, j := Slot(b, n), Slot(b, LATE_WIN);
      hide Slot, Blend;
      forall y: nat | InRing(y) && y != b
        ensures Slot(y, n) != i && (y >= head - LATE_WIN && b >= head - LATE_WIN ==> Slot(y, LATE_WIN) != j)
        ensures Shows(y) && (y >= head - LATE_WIN ==> Counts(y))
      {
        Apart(b, y);
      }
      var was, recent := vals[i], b >= head - LATE_WIN;
      if was == None {
        vals[i] := Some(v);
        if recent {
          late[j] := 1;
        }
      } else if agg == Sum {
        vals[i] := Some(was.value + v);
      } else if recent {
        var k := if late[j] > 1 then late[j] else 1;
        vals[i] := Some(Blend(was.value, k, v));
        late[j] := Wrap(k + 1);
      }
      book := Buckets.AddLate(book, b, v);
    }

    /** Two buckets of the ring have different slots, and different count slots if both are recent. */
    lemma Apart(a: nat, b: nat)
      requires n > 0 && InRing(a) && InRing(b) && a != b
      ensures Slot(a, n) != Slot(b, n)
      ensures a >= head - LATE_WIN && b >= head - LATE_WIN ==> Slot(a, LATE_WIN) != Slot(b, LATE_WIN)
    {
      hide Slot;
      if a < b {
        SlotsDiffer(a, b, n);
        if a >= head - LATE_WIN {
          SlotsDiffer(a, b, LATE_WIN);
        }
      } else {
        SlotsDiffer(b, a, n);
        if b >= head - LATE_WIN {
          SlotsDiffer(b, a, LATE_WIN);
        }
      }
    }
  }

  /** Any run of samples and closings on a new series: what the ring shows of a bucket it still holds
      is what the unbounded book of the run says. */
  method Replay(agg: Agg, capacity: nat, events: seq<Event>) returns (s: Series)
    requires capacity > 0
    ensures s.Valid() && s.n == capacity && s.book == Run(agg, events)
    ensures forall b :: s.At(b) == if s.InRing(b) then Lookup(Run(agg, events), b) else None
  {
    s := new Series(agg, capacity);
    for i := 0 to |events|
      invariant s.Valid() && s.n == capacity && s.book == Run(agg, events[..i]) && fresh(s) && fresh(s.vals) && fresh(s.late)
    {
      assert events[..i+1][..i] == events[..i];
      match events[i] {
        case Sample(b, v) => s.Add(b, v);
        case Close(b) => s.Advance(b);
      }
    }
    assert events[..|events|] == events;
  }
}
