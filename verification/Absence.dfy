/** The life of an absence finding: a series that stops arriving while others keep coming. */
module Absence {
  import opened Options
  import opened Findings

  datatype Presence = Here | Gone | Expired

  /** What is known of an evaluated bucket: has the series data of its own in it (or an undefined sample
      at or after it), did any series reach it, and would a drop to nothing matter? */
  datatype Look = Look(b: int, own: bool, seen: bool, matters: bool)

  datatype State = State(presence: Presence, run: nat, since: int)

  /** One evaluated bucket. need is how many missed buckets it takes to fire, ttl after how many
      buckets a finding expires (never if not positive). */
  function Track(st: State, l: Look, need: int, ttl: int): (State, Option<Kind>) {
    if l.own then (State(Here, 0, st.since), if st.presence == Gone then Some(Resolve) else None)
    else if st.presence == Gone then
      if ttl > 0 && l.b - st.since >= ttl then (st.(presence := Expired), Some(Resolve)) else (st, None)
    else if st.presence == Here && l.seen then
      var since := if st.run == 0 then l.b else st.since;
      if st.run + 1 >= need && l.matters then (State(Gone, st.run + 1, since), Some(Fire))
      else (State(Here, st.run + 1, since), None)
    else (st, None)
  }

  function RunTrack(st: State, h: seq<Look>, need: int, ttl: int): State {
    if h == [] then st else Track(RunTrack(st, h[..|h|-1], need, ttl), h[|h|-1], need, ttl).0
  }

  function AbsenceAfter(st: State, h: seq<Look>, l: Look, need: int, ttl: int): Option<Kind> {
    Track(RunTrack(st, h, need, ttl), l, need, ttl).1
  }

  /** How a series starts out: just created, or restored with a firing absence finding since a bucket. */
  datatype Origin = Created | Restored(since: int)

  function Start(o: Origin): State {
    match o
    case Created => State(Here, 0, 0)
    case Restored(since) => State(Gone, 0, since)
  }

  /** The buckets that some series reached and this one missed since it last had data of its own. */
  function Missed(o: Origin, h: seq<Look>): seq<int> {
    if h == [] then
      if o.Restored? then [o.since] else []
    else
      var l := h[|h|-1];
      if l.own then [] else Missed(o, h[..|h|-1]) + if l.seen then [l.b] else []
  }

  /** The run length and its first bucket are functions of the history. */
  lemma {:induction false} MissedAgrees(o: Origin, h: seq<Look>, need: int, ttl: int)
    requires need >= 1
    ensures var st, m := RunTrack(Start(o), h, need, ttl), Missed(o, h);
      && (st.presence == Here ==> st.run == |m|)
      && (st.presence != Here ==> m != [])
      && (m != [] ==> st.since == m[0])
  {
    if h != [] {
      MissedAgrees(o, h[..|h|-1], need, ttl);
    }
  }

  /** An absence finding fires exactly when the series is neither firing nor expired, misses a bucket
      that some series reached, has by now missed need of them without data of its own between, and
      its last expected value matters. */
  lemma AbsenceFiresExactly(o: Origin, h: seq<Look>, l: Look, need: int, ttl: int)
    requires need >= 1
    ensures AbsenceAfter(Start(o), h, l, need, ttl) == Some(Fire) <==>
      && RunTrack(Start(o), h, need, ttl).presence == Here
      && !l.own && l.seen && l.matters && |Missed(o, h + [l])| >= need
  {
    MissedAgrees(o, h, need, ttl);
    assert (h + [l])[..|h|] == h;
  }

  /** A firing one resolves exactly at data of its own or when ttl has passed since the first missed bucket. */
  lemma AbsenceResolvesExactly(o: Origin, h: seq<Look>, l: Look, need: int, ttl: int)
    requires need >= 1 && RunTrack(Start(o), h, need, ttl).presence == Gone
    ensures Missed(o, h) != []
    ensures AbsenceAfter(Start(o), h, l, need, ttl) == Some(Resolve) <==> l.own || (ttl > 0 && l.b - Missed(o, h)[0] >= ttl)
    ensures RunTrack(Start(o), h + [l], need, ttl).presence
         == if l.own then Here else if ttl > 0 && l.b - Missed(o, h)[0] >= ttl then Expired else Gone
  {
    MissedAgrees(o, h, need, ttl);
    assert (h + [l])[..|h|] == h;
  }

  /** After it expired nothing happens, however many buckets go by, until data returns. */
  lemma {:induction false} QuietAfterExpiry(st: State, h: seq<Look>, need: int, ttl: int)
    requires st.presence == Expired && forall l :: l in h ==> !l.own
    ensures RunTrack(st, h, need, ttl) == st
    ensures forall l: Look :: AbsenceAfter(st, h, l, need, ttl) == None
  {
    if h != [] {
      QuietAfterExpiry(st, h[..|h|-1], need, ttl);
    }
  }

  function AbsenceEvents(st: State, h: seq<Look>, need: int, ttl: int): seq<Kind> {
    if h == [] then []
    else AbsenceEvents(st, h[..|h|-1], need, ttl) + Known(AbsenceAfter(st, h[..|h|-1], h[|h|-1], need, ttl))
  }

  lemma TrackFits(st: State, l: Look, need: int, ttl: int)
    ensures var (after, e) := Track(st, l, need, ttl);
      if e.None? then after.presence == Gone <==> st.presence == Gone
      else e.value != Update && Next(Some(st.presence == Gone), e.value) == Some(after.presence == Gone)
  {
  }

  /** Fire and resolve alternate, and a finding is open exactly while the series counts as gone. */
  lemma {:induction false} AbsenceGrammar(st: State, h: seq<Look>, need: int, ttl: int)
    ensures OpenAfter(st.presence == Gone, AbsenceEvents(st, h, need, ttl)) == Some(RunTrack(st, h, need, ttl).presence == Gone)
    ensures Update !in AbsenceEvents(st, h, need, ttl)
  {
    if h != [] {
      hide Track, Next, OpenAfter;
      var before, l := h[..|h|-1], h[|h|-1];
      AbsenceGrammar(st, before, need, ttl);
      TrackFits(RunTrack(st, before, need, ttl), l, need, ttl);
      OneMore(st.presence == Gone, AbsenceEvents(st, before, need, ttl), AbsenceAfter(st, before, l, need, ttl));
    } else {
      assert OpenAfter(st.presence == Gone, []) == Some(st.presence == Gone);
    }
  }
}
