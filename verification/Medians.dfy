/** The median, and how little it can be moved: what the robust scale of the scorer rests on. */
module Medians {
  predicate Sorted(s: seq<real>) {
    forall i, j :: 0 <= i < j < |s| ==> s[i] <= s[j]
  }

  /** The middle element, or the mean of the middle pair. */
  function Mid(s: seq<real>): real
    requires |s| > 0
  {
    if |s| % 2 == 1 then s[|s|/2] else (s[|s|/2-1] + s[|s|/2]) / 2.0
  }

  function Insert(x: real, s: seq<real>): (r: seq<real>)
    ensures |r| == |s| + 1
  {
    if s == [] || x <= s[0] then [x] + s else [s[0]] + Insert(x, s[1..])
  }

  function Sort(s: seq<real>): (r: seq<real>)
    ensures |r| == |s|
  {
    if s == [] then [] else Insert(s[0], Sort(s[1..]))
  }

  /** The median of values in any order. */
  function Median(s: seq<real>): real
    requires |s| > 0
  {
    Mid(Sort(s))
  }

  lemma First(s: seq<real>)
    requires s != []
    ensures multiset(s) == multiset(s[1..]) + multiset{s[0]}
  {
    assert s == [s[0]] + s[1..];
  }

  lemma {:induction false} InsertSame(x: real, s: seq<real>)
    ensures multiset(Insert(x, s)) == multiset(s) + multiset{x}
  {
    if s != [] && x > s[0] {
      InsertSame(x, s[1..]);
      First(s);
    }
  }

  lemma {:induction false} InsertSorted(x: real, s: seq<real>)
    requires Sorted(s)
    ensures Sorted(Insert(x, s))
    ensures s != [] ==> Insert(x, s)[0] == if x <= s[0] then x else s[0]
  {
    if s == [] || x <= s[0] {
    } else {
      InsertSorted(x, s[1..]);
    }
  }

  lemma {:induction false} SortProps(s: seq<real>)
    ensures Sorted(Sort(s)) && multiset(Sort(s)) == multiset(s)
  {
    if s != [] {
      hide Insert, Sorted;
      SortProps(s[1..]);
      InsertSorted(s[0], Sort(s[1..]));
      InsertSame(s[0], Sort(s[1..]));
      First(s);
    }
  }

  lemma SortedFirst(a: seq<real>, v: real)
    requires Sorted(a) && v in multiset(a)
    ensures a != [] && a[0] <= v && Sorted(a[1..])
  {
    var i :| 0 <= i < |a| && a[i] == v;
  }

  lemma SameFirst(a: seq<real>, b: seq<real>)
    requires Sorted(a) && Sorted(b) && multiset(a) == multiset(b) && a != []
    ensures b != [] && a[0] == b[0] && Sorted(a[1..]) && Sorted(b[1..])
  {
    hide Sorted;
    assert |b| == |multiset(a)|;
    assert a[0] in multiset(b) && b[0] in multiset(a);
    SortedFirst(a, b[0]);
    SortedFirst(b, a[0]);
  }

  lemma {:induction false} SortedUnique(a: seq<real>, b: seq<real>)
    requires Sorted(a) && Sorted(b) && multiset(a) == multiset(b)
    ensures a == b
  {
    hide Sorted;
    if a == [] {
      assert |multiset(a)| == |multiset(b)|;
    } else {
      SameFirst(a, b);
      SameRest(a, b, 0);
      assert b[..0] + b[1..] == b[1..];
      SortedUnique(a[1..], b[1..]);
      assert a == [a[0]] + a[1..];
    }
  }

  lemma Without(b: seq<real>, i: nat)
    requires i < |b|
    ensures multiset(b) == multiset(b[..i] + b[i+1..]) + multiset{b[i]}
  {
    assert b == b[..i] + [b[i]] + b[i+1..];
  }

  /** Taking the same value out of two lists with the same values leaves the same values. */
  lemma SameRest(a: seq<real>, b: seq<real>, i: nat)
    requires multiset(a) == multiset(b) && a != [] && i < |b| && b[i] == a[0]
    ensures multiset(a[1..]) == multiset(b[..i] + b[i+1..])
  {
    First(a);
    Without(b, i);
    Cancel(multiset(a[1..]), multiset(b[..i] + b[i+1..]), a[0]);
  }

  lemma Cancel(m: multiset<real>, n: multiset<real>, v: real)
    requires m + multiset{v} == n + multiset{v}
    ensures m == n
  {
    assert m == (m + multiset{v}) - multiset{v};
    assert n == (n + multiset{v}) - multiset{v};
  }

  /** However the values are sorted, the middle is the median; so it does not depend on their order. */
  lemma MedianOfSorted(s: seq<real>, t: seq<real>)
    requires |s| > 0 && Sorted(t) && multiset(t) == multiset(s)
    ensures |t| == |s| && Median(s) == Mid(t)
  {
    SortProps(s);
    SortedUnique(Sort(s), t);
  }

  lemma MedianPermuted(s: seq<real>, t: seq<real>)
    requires multiset(s) == multiset(t) && s != []
    ensures t != [] && Median(s) == Median(t)
  {
    assert |multiset(s)| == |multiset(t)|;
    SortProps(s);
    MedianOfSorted(t, Sort(s));
  }

  // --- robustness ---------------------------------------------------------------------------------

  function Count(s: seq<real>, p: real -> bool): nat {
    if s == [] then 0 else Count(s[..|s|-1], p) + if p(s[|s|-1]) then 1 else 0
  }

  lemma {:induction false} CountSplit(a: seq<real>, b: seq<real>, p: real -> bool)
    ensures Count(a + b, p) == Count(a, p) + Count(b, p)
  {
    if b == [] {
      assert a + b == a;
    } else {
      CountSplit(a, b[..|b|-1], p);
      assert (a + b)[..|a + b|-1] == a + b[..|b|-1];
    }
  }

  /** Taking out one value takes away its part of the count. */
  lemma CountWithout(s: seq<real>, i: nat, p: real -> bool)
    requires i < |s|
    ensures Count(s, p) == Count(s[..i] + s[i+1..], p) + if p(s[i]) then 1 else 0
  {
    var x, v, y := s[..i], s[i], s[i+1..];
    assert s == x + [v] + y;
    CountSplit(x, y, p);
    CountSplit(x + [v], y, p);
    CountSplit(x, [v], p);
    assert [v][..0] == [];
  }

  /** How many of the values satisfy p does not depend on their order. */
  lemma {:induction false} CountPermuted(a: seq<real>, b: seq<real>, p: real -> bool)
    requires multiset(a) == multiset(b)
    ensures Count(a, p) == Count(b, p)
  {
    if a == [] {
      assert |multiset(a)| == |multiset(b)|;
    } else {
      hide Count;
      var i := Find(a, b);
      SameRest(a, b, i);
      var rest := b[..i] + b[i+1..];
      CountPermuted(a[1..], rest, p);
      CountWithout(b, i, p);
      CountWithout(a, 0, p);
      assert a[..0] + a[1..] == a[1..];
    }
  }

  /** At least as many values satisfy p as there are places known to. */
  lemma {:induction false} CountPlaces(s: seq<real>, kept: set<nat>, p: real -> bool)
    requires forall i :: i in kept ==> i < |s| && p(s[i])
    ensures Count(s, p) >= |kept|
  {
    if s == [] {
      assert kept == {};
    } else {
      var last := |s| - 1;
      CountPlaces(s[..last], kept - {last}, p);
    }
  }

  /** The first k places. */
  function Places(k: nat): (r: set<nat>)
    ensures forall i: nat :: i in r <==> i < k
    ensures |r| == k
  {
    if k == 0 then {} else Places(k - 1) + {k - 1}
  }

  /** The places from k up to n - 1. */
  function LastPlaces(k: nat, n: nat): (r: set<nat>)
    requires k <= n
    ensures forall i: nat :: i in r <==> k <= i < n
    ensures |r| == n - k
    decreases n - k
  {
    if k == n then {} else LastPlaces(k + 1, n) + {k}
  }

  lemma {:induction false} CountExclusive(s: seq<real>, p: real -> bool, q: real -> bool)
    requires forall v :: !(p(v) && q(v))
    ensures Count(s, p) + Count(s, q) <= |s|
  {
    if s != [] {
      CountExclusive(s[..|s|-1], p, q);
    }
  }

  /** If more than k of the values satisfy p, at most the other |s| - 1 - k satisfy something else. */
  lemma Outnumbered(s: seq<real>, kept: set<nat>, p: real -> bool, places: set<nat>, q: real -> bool)
    requires forall i :: i in kept ==> i < |s| && p(s[i])
    requires forall i :: i in places ==> i < |s| && q(Sort(s)[i])
    requires forall v :: !(p(v) && q(v))
    ensures |kept| + |places| <= |s|
  {
    hide Count, Sort, Sorted;
    var t := Sort(s);
    SortProps(s);
    CountPlaces(s, kept, p);
    CountPermuted(s, t, p);
    CountPlaces(t, places, q);
    CountExclusive(t, p, q);
  }

  /** If more than k of the values lie between lo and hi, the k-th smallest is at most hi and the k-th
      largest at least lo. */
  lemma OrderStatistic(s: seq<real>, kept: set<nat>, lo: real, hi: real, k: nat)
    requires forall i :: i in kept ==> i < |s| && lo <= s[i] <= hi
    requires k < |s| && |kept| > k
    ensures Sort(s)[k] <= hi && Sort(s)[|s|-1-k] >= lo
  {
    hide Sort;
    SortProps(s);
    var t, n := Sort(s), |s|;
    if t[k] > hi {
      Outnumbered(s, kept, v => lo <= v <= hi, LastPlaces(k, n), v => v > hi);
    }
    if t[n-1-k] < lo {
      Outnumbered(s, kept, v => lo <= v <= hi, Places(n - k), v => v < lo);
    }
  }

  // --- the median by counting -----------------------------------------------------------------------

  function Less(s: seq<real>, v: real): nat {
    Count(s, x => x < v)
  }

  function Greater(s: seq<real>, v: real): nat {
    Count(s, x => x > v)
  }

  /** Fewer than half of the values are less and at most half are greater: v is the middle value, or the lower
      one of the middle pair. For the upper one it is the other way round. */
  predicate LowerMiddle(s: seq<real>, v: real) {
    v in s && 2 * Less(s, v) < |s| <= 2 * (|s| - Greater(s, v))
  }

  predicate UpperMiddle(s: seq<real>, v: real) {
    v in s && 2 * Greater(s, v) < |s| <= 2 * (|s| - Less(s, v))
  }

  lemma CountSides(s: seq<real>, v: real, k: nat)
    requires Sorted(s) && k < |s| && s[k] == v
    ensures Less(s, v) <= k && Greater(s, v) <= |s| - 1 - k
  {
    CountPlaces(s, LastPlaces(k, |s|), x => x >= v);
    CountExclusive(s, x => x < v, x => x >= v);
    CountPlaces(s, Places(k + 1), x => x <= v);
    CountExclusive(s, x => x > v, x => x <= v);
  }

  /** The median is the mean of the lower and the upper middle value, whatever order the values are in; of an
      odd number of values both are the same. */
  lemma MedianByCounting(s: seq<real>) returns (lo: real, hi: real)
    requires s != []
    ensures LowerMiddle(s, lo) && UpperMiddle(s, hi) && 2.0 * Median(s) == lo + hi
    ensures |s| % 2 == 1 ==> lo == hi
  {
    hide Count, Sort, Sorted;
    var t, n := Sort(s), |s|;
    SortProps(s);
    lo, hi := t[(n-1)/2], t[n/2];
    CountSides(t, lo, (n - 1) / 2);
    CountSides(t, hi, n / 2);
    CountPermuted(s, t, x => x < lo);
    CountPermuted(s, t, x => x > lo);
    CountPermuted(s, t, x => x < hi);
    CountPermuted(s, t, x => x > hi);
    assert lo in multiset(t) && hi in multiset(t);
  }

  /** Both are unique, so this says what the median is. */
  lemma MiddlesUnique(s: seq<real>, v: real, w: real)
    ensures LowerMiddle(s, v) && LowerMiddle(s, w) ==> v == w
    ensures UpperMiddle(s, v) && UpperMiddle(s, w) ==> v == w
  {
    hide Count;
    LessOrGreater(s, v, w);
    LessOrGreater(s, w, v);
  }

  lemma {:induction false} LessOrGreater(s: seq<real>, v: real, w: real)
    ensures v < w ==> Less(s, w) + Greater(s, v) >= |s|
  {
    if s != [] {
      LessOrGreater(s[..|s|-1], v, w);
    }
  }

  /** Replace fewer than half of the values by anything: the median stays between the smallest and the
      largest value that was kept. */
  lemma MedianRobust(s: seq<real>, kept: set<nat>, lo: real, hi: real)
    requires forall i :: i in kept ==> i < |s| && lo <= s[i] <= hi
    requires 2 * |kept| > |s| > 0
    ensures lo <= Median(s) <= hi
  {
    SortProps(s);
    OrderStatistic(s, kept, lo, hi, |s| / 2);
    if |s| % 2 == 0 {
      OrderStatistic(s, kept, lo, hi, |s| / 2 - 1);
    }
  }

  function Abs(x: real): real {
    if x < 0.0 then -x else x
  }

  /** The distances of the values from c. */
  function Distances(s: seq<real>, c: real): (r: seq<real>)
    ensures |r| == |s| && forall i {:trigger r[i]} :: 0 <= i < |s| ==> r[i] == Abs(s[i] - c)
  {
    seq(|s|, i requires 0 <= i < |s| => Abs(s[i] - c))
  }

  /** The median absolute deviation from the median. */
  function Mad(s: seq<real>): real
    requires |s| > 0
  {
    Median(Distances(s, Median(s)))
  }

  /** Replace fewer than half of the values by anything: the deviation is at most the range of the
      values that were kept. */
  lemma MadRobust(s: seq<real>, kept: set<nat>, lo: real, hi: real)
    requires forall i :: i in kept ==> i < |s| && lo <= s[i] <= hi
    requires 2 * |kept| > |s| > 0
    ensures 0.0 <= Mad(s) <= hi - lo
  {
    MedianRobust(s, kept, lo, hi);
    MedianRobust(Distances(s, Median(s)), kept, 0.0, hi - lo);
  }

  lemma MadNonNegative(s: seq<real>)
    requires s != []
    ensures Mad(s) >= 0.0
  {
    hide Sort, Sorted;
    var d := Distances(s, Median(s));
    SortProps(d);
    forall v | v in multiset(Sort(d)) ensures v >= 0.0 {
      assert v in multiset(d);
    }
    assert forall i :: 0 <= i < |d| ==> Sort(d)[i] in multiset(Sort(d));
  }

  /** If more than half of the values are at least lo and at most hi away from the median, so is the deviation. */
  lemma MadBetween(s: seq<real>, kept: set<nat>, lo: real, hi: real)
    requires s != [] && 2 * |kept| > |s|
    requires var m := Median(s);
      forall i :: i in kept ==> i < |s| && m - hi <= s[i] <= m + hi && (s[i] <= m - lo || s[i] >= m + lo)
    ensures lo <= Mad(s) <= hi
  {
    hide Median;
    MedianRobust(Distances(s, Median(s)), kept, lo, hi);
  }

  lemma DistancesWithout(t: seq<real>, i: nat, c: real)
    requires i < |t|
    ensures Distances(t, c)[..i] + Distances(t, c)[i+1..] == Distances(t[..i] + t[i+1..], c)
    ensures Distances(t, c)[i] == Abs(t[i] - c)
  {
    hide Abs;
  }

  lemma {:induction false} DistancesPermuted(s: seq<real>, t: seq<real>, c: real)
    requires multiset(s) == multiset(t)
    ensures multiset(Distances(s, c)) == multiset(Distances(t, c))
  {
    hide Distances, Abs;
    if s == [] {
      NothingElse(t);
    } else {
      var i := Find(s, t);
      SameRest(s, t, i);
      DistancesPermuted(s[1..], t[..i] + t[i+1..], c);
      DistancesWithout(s, 0, c);
      DistancesWithout(t, i, c);
      assert s[..0] + s[1..] == s[1..];
      SameWithout(Distances(s, c), 0, Distances(t, c), i);
    }
  }

  lemma NothingElse(t: seq<real>)
    requires multiset([]) == multiset(t)
    ensures t == []
  {
    assert |multiset(t)| == 0;
  }

  /** The first value of s is somewhere in any list of the same values. */
  lemma Find(s: seq<real>, t: seq<real>) returns (i: nat)
    requires s != [] && multiset(s) == multiset(t)
    ensures i < |t| && t[i] == s[0]
  {
    assert s[0] in multiset(t);
    i :| i < |t| && t[i] == s[0];
  }

  lemma SameWithout(a: seq<real>, i: nat, b: seq<real>, j: nat)
    requires i < |a| && j < |b| && a[i] == b[j] && multiset(a[..i] + a[i+1..]) == multiset(b[..j] + b[j+1..])
    ensures multiset(a) == multiset(b)
  {
    Without(a, i);
    Without(b, j);
  }
}
