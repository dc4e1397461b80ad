/** The events that evaluating all series gives are those that the server takes as given. */
module EvaluationLink {
  import opened Sequences
  import opened Findings
  import Evaluation
  import opened Agreement

  /** An event of the series with key k in the list of all events. */
  function Tag(k: Key, e: Evaluation.Event, subject: Subject): Event {
    if e.absence then Event(AbsentKey(k), e.kind, MetricAbsent) else Event(k, e.kind, subject)
  }

  function Tagged(k: Key, events: seq<Evaluation.Event>, subject: Subject): seq<Event> {
    if events == [] then [] else Tagged(k, events[..|events|-1], subject) + [Tag(k, events[|events|-1], subject)]
  }

  /** The events of the series with these keys, one series after the other. */
  function Gathered(keys: seq<Key>, of: map<Key, seq<Evaluation.Event>>, subject: Subject): seq<Event>
    requires forall k :: k in keys ==> k in of
  {
    if keys == [] then []
    else Gathered(keys[..|keys|-1], of, subject) + Tagged(keys[|keys|-1], of[keys[|keys|-1]], subject)
  }

  lemma {:induction false} KindsConcat(a: seq<Event>, b: seq<Event>, x: Key)
    ensures KindsOf(a + b, x) == KindsOf(a, x) + KindsOf(b, x)
  {
    if b == [] {
      assert a + b == a;
    } else {
      assert (a + b)[..|a + b|-1] == a + b[..|b|-1];
      KindsConcat(a, b[..|b|-1], x);
    }
  }

  lemma {:induction false} TaggedKinds(k: Key, events: seq<Evaluation.Event>, subject: Subject, x: Key)
    ensures KindsOf(Tagged(k, events, subject), x)
         == if x == k then Evaluation.Kinds(events, false) else if x == AbsentKey(k) then Evaluation.Kinds(events, true) else []
  {
    if events != [] {
      assert |AbsentKey(k)| > |k|;
      TaggedKinds(k, events[..|events|-1], subject, x);
      var tagged, tag := Tagged(k, events[..|events|-1], subject), Tag(k, events[|events|-1], subject);
      assert (tagged + [tag])[..|tagged|] == tagged;
    }
  }

  lemma {:induction false} TaggedSubjects(k: Key, events: seq<Evaluation.Event>, subject: Subject)
    ensures forall e :: e in Tagged(k, events, subject) ==>
      || (e.key == k && e.subject == subject)
      || (e.key == AbsentKey(k) && e.subject == MetricAbsent && Evaluation.Kinds(events, true) != [])
  {
    if events != [] {
      TaggedSubjects(k, events[..|events|-1], subject);
    }
  }

  /** No absence finding has the key of one of the series. */
  predicate NoneAbsent(keys: seq<Key>, of: map<Key, seq<Evaluation.Event>>)
    requires forall k :: k in keys ==> k in of
  {
    forall k, x :: k in keys && x in keys ==> x != AbsentKey(k) || Evaluation.Kinds(of[k], true) == []
  }

  lemma NoneAbsentBefore(keys: seq<Key>, of: map<Key, seq<Evaluation.Event>>)
    requires keys != [] && (forall k :: k in keys ==> k in of) && NoneAbsent(keys, of)
    ensures forall k :: k in keys[..|keys|-1] ==> k in of
    ensures NoneAbsent(keys[..|keys|-1], of)
  {
    var before := keys[..|keys|-1];
    assert keys == before + [keys[|keys|-1]];
    forall k, x | k in before && x in before ensures x != AbsentKey(k) || Evaluation.Kinds(of[k], true) == [] {
      assert k in keys && x in keys;
    }
  }

  /** Only series x, and a series whose absence finding has key x, have events with that key. */
  lemma {:induction false} GatheredElsewhere(keys: seq<Key>, of: map<Key, seq<Evaluation.Event>>, subject: Subject, x: Key)
    requires forall k :: k in keys ==> k in of
    requires forall k :: k in keys ==> x != k && (x != AbsentKey(k) || Evaluation.Kinds(of[k], true) == [])
    ensures KindsOf(Gathered(keys, of, subject), x) == []
  {
    if keys != [] {
      var before, k := keys[..|keys|-1], keys[|keys|-1];
      assert keys == before + [k];
      GatheredElsewhere(before, of, subject, x);
      TaggedKinds(k, of[k], subject, x);
      KindsConcat(Gathered(before, of, subject), Tagged(k, of[k], subject), x);
    }
  }

  lemma {:induction false} GatheredKinds(keys: seq<Key>, of: map<Key, seq<Evaluation.Event>>, subject: Subject, x: Key)
    requires x in keys && Distinct(keys) && (forall k :: k in keys ==> k in of) && NoneAbsent(keys, of)
    ensures KindsOf(Gathered(keys, of, subject), x) == Evaluation.Kinds(of[x], false)
  {
    hide AbsentKey, KindsOf, Evaluation.Kinds, Tagged, Distinct;
    DistinctBefore(keys);
    var before, k := keys[..|keys|-1], keys[|keys|-1];
    assert keys == before + [k];
    KindsConcat(Gathered(before, of, subject), Tagged(k, of[k], subject), x);
    TaggedKinds(k, of[k], subject, x);
    if x == k {
      GatheredElsewhere(before, of, subject, x);
    } else {
      NoneAbsentBefore(keys, of);
      GatheredKinds(before, of, subject, x);
    }
  }

  lemma {:induction false} GatheredAbsence(keys: seq<Key>, of: map<Key, seq<Evaluation.Event>>, subject: Subject, x: Key)
    requires x in keys && Distinct(keys) && (forall k :: k in keys ==> k in of) && AbsentKey(x) !in keys
    ensures KindsOf(Gathered(keys, of, subject), AbsentKey(x)) == Evaluation.Kinds(of[x], true)
  {
    hide AbsentKey, KindsOf, Evaluation.Kinds, Tagged, Distinct;
    DistinctBefore(keys);
    var before, k, a := keys[..|keys|-1], keys[|keys|-1], AbsentKey(x);
    assert keys == before + [k];
    KindsConcat(Gathered(before, of, subject), Tagged(k, of[k], subject), a);
    TaggedKinds(k, of[k], subject, a);
    AbsentKeyInjective(x, k);
    if x == k {
      forall y | y in before ensures a != AbsentKey(y) {
        AbsentKeyInjective(x, y);
      }
      GatheredElsewhere(before, of, subject, a);
    } else {
      GatheredAbsence(before, of, subject, x);
    }
  }

  lemma {:induction false} GatheredSubjects(keys: seq<Key>, of: map<Key, seq<Evaluation.Event>>, subject: Subject)
    requires forall k :: k in keys ==> k in of
    ensures forall e :: e in Gathered(keys, of, subject) ==>
      (e.key in keys && e.subject == subject)
      || (e.subject == MetricAbsent && exists k :: k in keys && e.key == AbsentKey(k) && Evaluation.Kinds(of[k], true) != [])
  {
    if keys != [] {
      var before, k := keys[..|keys|-1], keys[|keys|-1];
      GatheredSubjects(before, of, subject);
      TaggedSubjects(k, of[k], subject);
    }
  }

  /** The events that evaluating the metric series one after the other gives, in any order of the series,
      are what the server takes as given. */
  lemma MetricEventsGathered(c: Config, prom: Store, f: Findout, keys: seq<Key>, of: map<Key, seq<Evaluation.Event>>)
    requires Separate(prom.Keys, {}) && Distinct(keys) && of.Keys == prom.Keys && forall k :: k in keys <==> k in prom
    requires forall k :: k in prom ==>
      Evaluation.Kinds(of[k], false) == MetricKinds(c, prom[k], k, f) && Evaluation.Kinds(of[k], true) == AbsentKinds(c, prom[k], k, f)
    ensures MetricEvents(c, prom, f, Gathered(keys, of, Metric))
  {
    hide MetricKinds, AbsentKinds, Evaluation.Kinds, AbsentKey, Gathered, KindsOf;
    var events := Gathered(keys, of, Metric);
    GatheredSubjects(keys, of, Metric);
    forall k | k in prom ensures MetricEventsAt(c, prom, f, events, k) {
      GatheredKinds(keys, of, Metric, k);
      GatheredAbsence(keys, of, Metric, k);
      forall j | 0 <= j < |events|
        ensures events[j].key == k ==> events[j].subject == Metric
        ensures events[j].key == AbsentKey(k) ==> events[j].subject == MetricAbsent {
        assert events[j] in events;
      }
    }
  }

  /** And those of the log series, none of which is tracked for absence. */
  lemma LogEventsGathered(c: Config, logs: Store, f: Findout, keys: seq<Key>, of: map<Key, seq<Evaluation.Event>>)
    requires Distinct(keys) && of.Keys == logs.Keys && forall k :: k in keys <==> k in logs
    requires forall k :: k in logs ==>
      Evaluation.Kinds(of[k], false) == LogKinds(c, logs[k], k, f) && Evaluation.Kinds(of[k], true) == []
    ensures LogEvents(c, logs, f, Gathered(keys, of, LogSeries))
  {
    hide LogKinds, Evaluation.Kinds, AbsentKey, Gathered, KindsOf;
    var events := Gathered(keys, of, LogSeries);
    GatheredSubjects(keys, of, LogSeries);
    forall k | k in logs ensures LogEventsAt(c, logs, f, events, k) {
      GatheredKinds(keys, of, LogSeries, k);
      forall j | 0 <= j < |events| ensures events[j].key == k ==> events[j].subject == LogSeries {
        assert events[j] in events;
      }
    }
  }
}
