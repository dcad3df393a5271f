/** The client library's labelled vectors, as far as the collectors use them. */
module Metrics {
  import opened Prelude
  import opened Tally

  /** One histogram child: how many values it has seen and their sum. */
  datatype Summary = Summary(count: nat, sum: real)

  datatype Sample<K> = Sample(key: K, value: real)

  /** `vec.WithLabelValues(k).Observe(v)`. */
  function Observe<K>(h: map<K, Summary>, k: K, v: real): map<K, Summary> {
    h[k := if k in h then Summary(h[k].count + 1, h[k].sum + v) else Summary(1, v)]
  }

  ghost function KeysOf<K>(samples: seq<Sample<K>>): (ks: seq<K>)
    ensures |ks| == |samples|
  {
    Map((s: Sample<K>) => s.key, samples)
  }

  ghost function SumFor<K>(samples: seq<Sample<K>>, k: K): real {
    if samples == [] then 0.0
    else
      var last := samples[|samples| - 1];
      SumFor(samples[..|samples| - 1], k) + if last.key == k then last.value else 0.0
  }

  /** h is the histogram vector that has observed exactly these samples. */
  ghost predicate Summarises<K>(h: map<K, Summary>, samples: seq<Sample<K>>) {
    && h.Keys == Elements(KeysOf(samples))
    && forall k :: k in h ==> h[k].count == multiset(KeysOf(samples))[k] && h[k].sum == SumFor(samples, k)
  }

  lemma {:induction false} SumForAbsent<K>(samples: seq<Sample<K>>, k: K)
    requires k !in KeysOf(samples)
    ensures SumFor(samples, k) == 0.0
  {
    if samples != [] {
      var front, last := samples[..|samples| - 1], samples[|samples| - 1];
      assert KeysOf(samples) == KeysOf(front) + [last.key];
      SumForAbsent(front, k);
    }
  }

  lemma ObserveSummarises<K>(h: map<K, Summary>, samples: seq<Sample<K>>, k: K, v: real)
    requires Summarises(h, samples)
    ensures Summarises(Observe(h, k, v), samples + [Sample(k, v)])
  {
    var all := samples + [Sample(k, v)];
    assert all[..|samples|] == samples;
    assert KeysOf(all) == KeysOf(samples) + [k];
    assert Elements(KeysOf(all)) == Elements(KeysOf(samples)) + {k};
    if k !in h {
      assert k !in KeysOf(samples);
      SumForAbsent(samples, k);
    }
    forall q | q in Observe(h, k, v)
      ensures Observe(h, k, v)[q].sum == SumFor(all, q)
    {
    }
  }

  /** The total count over the listed children. */
  ghost function CountOver<K>(h: map<K, Summary>, order: seq<K>): nat {
    if order == [] then 0
    else
      var k := order[|order| - 1];
      CountOver(h, order[..|order| - 1]) + if k in h then h[k].count else 0
  }

  lemma {:induction false} CountOverIsTotal<K>(h: map<K, Summary>, samples: seq<Sample<K>>, order: seq<K>)
    requires Summarises(h, samples)
    ensures CountOver(h, order) == Total(KeysOf(samples), order)
  {
    if order != [] {
      CountOverIsTotal(h, samples, order[..|order| - 1]);
      var k := order[|order| - 1];
      assert k in h <==> k in KeysOf(samples);
    }
  }

  /** The total of the sums of the listed children. */
  ghost function SumOver<K>(h: map<K, Summary>, order: seq<K>): real {
    if order == [] then 0.0
    else
      var k := order[|order| - 1];
      SumOver(h, order[..|order| - 1]) + if k in h then h[k].sum else 0.0
  }

  /** The sum of the samples that went to one of the listed children. */
  ghost function SumWithin<K>(samples: seq<Sample<K>>, order: seq<K>): real {
    if samples == [] then 0.0
    else
      var last := samples[|samples| - 1];
      SumWithin(samples[..|samples| - 1], order) + if last.key in order then last.value else 0.0
  }

  lemma {:induction false} SumWithinSnoc<K>(samples: seq<Sample<K>>, order: seq<K>, k: K)
    requires k !in order
    ensures SumWithin(samples, order + [k]) == SumWithin(samples, order) + SumFor(samples, k)
  {
    if samples != [] {
      SumWithinSnoc(samples[..|samples| - 1], order, k);
      var key := samples[|samples| - 1].key;
      assert key in order + [k] <==> key in order || key == k;
    }
  }

  lemma {:induction false} SumWithinNone<K>(samples: seq<Sample<K>>)
    ensures SumWithin(samples, []) == 0.0
  {
    if samples != [] {
      SumWithinNone(samples[..|samples| - 1]);
    }
  }

  /** Adding up distinct children adds up exactly the samples that went to one of them. */
  lemma {:induction false} SumOverIsWithin<K>(h: map<K, Summary>, samples: seq<Sample<K>>, order: seq<K>)
    requires Summarises(h, samples) && Distinct(order)
    ensures SumOver(h, order) == SumWithin(samples, order)
  {
    if order == [] {
      SumWithinNone(samples);
    } else {
      var front, k := order[..|order| - 1], order[|order| - 1];
      assert order == front + [k] && k !in front;
      SumOverIsWithin(h, samples, front);
      SumWithinSnoc(samples, front, k);
      SumIn(h, samples, k);
    }
  }

  /** What a vector says about one child, which need not exist. */
  lemma SumIn<K>(h: map<K, Summary>, samples: seq<Sample<K>>, k: K)
    requires Summarises(h, samples)
    ensures (if k in h then h[k].count else 0) == multiset(KeysOf(samples))[k]
    ensures (if k in h then h[k].sum else 0.0) == SumFor(samples, k)
  {
    assert k in Elements(KeysOf(samples)) <==> k in KeysOf(samples);
    if k !in h {
      SumForAbsent(samples, k);
    }
  }

  /** Listing distinct children counts exactly the samples that went to one of them. */
  lemma CountOverIsWithin<K>(h: map<K, Summary>, samples: seq<Sample<K>>, order: seq<K>)
    requires Summarises(h, samples) && Distinct(order)
    ensures CountOver(h, order) == Within(KeysOf(samples), order)
  {
    CountOverIsTotal(h, samples, order);
    TotalIsWithin(KeysOf(samples), order);
  }

  /** A gauge vector after these values have been set, one after another. */
  ghost function Latest<K>(samples: seq<Sample<K>>): map<K, real> {
    if samples == [] then map[]
    else
      var last := samples[|samples| - 1];
      Latest(samples[..|samples| - 1])[last.key := last.value]
  }

  lemma LatestSnoc<K>(samples: seq<Sample<K>>, k: K, v: real)
    ensures Latest(samples + [Sample(k, v)]) == Latest(samples)[k := v]
  {
    assert (samples + [Sample(k, v)])[..|samples|] == samples;
  }

  /** A gauge exists exactly when it has been set, and reads as the value set last. */
  lemma {:induction false} LatestIsLast<K>(samples: seq<Sample<K>>, k: K)
    ensures k in Latest(samples) <==> k in KeysOf(samples)
    ensures k in Latest(samples) ==>
              exists i :: 0 <= i < |samples| && samples[i] == Sample(k, Latest(samples)[k])
                && forall j :: i < j < |samples| ==> samples[j].key != k
  {
    if samples != [] {
      var front, last := samples[..|samples| - 1], samples[|samples| - 1];
      assert KeysOf(samples) == KeysOf(front) + [last.key];
      LatestIsLast(front, k);
      if last.key == k {
        assert samples[|samples| - 1] == Sample(k, Latest(samples)[k]);
      } else if k in Latest(front) {
        var i :| 0 <= i < |front| && front[i] == Sample(k, Latest(front)[k])
                 && forall j :: i < j < |front| ==> front[j].key != k;
        assert samples[i] == Sample(k, Latest(samples)[k]);
      }
    }
  }

  // ---------- Run counters with their duration and queue histograms

  lemma SamplesSnoc<K>(samples: seq<Sample<K>>, x: Sample<K>)
    ensures KeysOf(samples + [x]) == KeysOf(samples) + [x.key]
    ensures forall k :: multiset(KeysOf(samples + [x]))[k] == multiset(KeysOf(samples))[k] + if x.key == k then 1 else 0
    ensures forall k :: SumFor(samples + [x], k) == SumFor(samples, k) + if x.key == k then x.value else 0.0
  {
    assert (samples + [x])[..|samples|] == samples;
    assert KeysOf(samples + [x]) == KeysOf(samples) + [x.key];
  }

  /** One recorded execution: its counter labels, the further labels of its duration histogram, and both times. */
  datatype Event<K, F> = Event(key: K, fine: F, duration: real, queued: real)

  /** Labels of a duration histogram. */
  datatype Fine<K, F> = Fine(key: K, fine: F)

  /** The positive durations, under their full labels. */
  ghost function Durations<K, F>(events: seq<Event<K, F>>): seq<Sample<Fine<K, F>>> {
    if events == [] then []
    else
      var (front, e) := (Durations(events[..|events| - 1]), events[|events| - 1]);
      if e.duration > 0.0 then front + [Sample(Fine(e.key, e.fine), e.duration)] else front
  }

  /** The positive queue times. */
  ghost function QueueTimes<K, F>(events: seq<Event<K, F>>): seq<Sample<K>> {
    if events == [] then []
    else
      var (front, e) := (QueueTimes(events[..|events| - 1]), events[|events| - 1]);
      if e.queued > 0.0 then front + [Sample(e.key, e.queued)] else front
  }

  ghost function Keys<K, F>(events: seq<Event<K, F>>): (ks: seq<K>)
    ensures |ks| == |events|
  {
    Map((e: Event<K, F>) => e.key, events)
  }

  /** The two histogram vectors and the counter vector that have recorded exactly these events. */
  ghost predicate Recorded<K, F>(duration: map<Fine<K, F>, Summary>, queued: map<K, Summary>, runCount: map<K, nat>,
                                 events: seq<Event<K, F>>) {
    && Summarises(duration, Durations(events))
    && Summarises(queued, QueueTimes(events))
    && Counts(runCount, Keys(events))
  }

  lemma EventsSnoc<K, F>(events: seq<Event<K, F>>, e: Event<K, F>)
    ensures Keys(events + [e]) == Keys(events) + [e.key]
    ensures Durations(events + [e]) ==
            if e.duration > 0.0 then Durations(events) + [Sample(Fine(e.key, e.fine), e.duration)] else Durations(events)
    ensures QueueTimes(events + [e]) ==
            if e.queued > 0.0 then QueueTimes(events) + [Sample(e.key, e.queued)] else QueueTimes(events)
  {
    assert (events + [e])[..|events|] == events;
  }

  /** Observing only positive times and always counting keeps the three in step. */
  lemma RecordEvent<K, F>(duration: map<Fine<K, F>, Summary>, queued: map<K, Summary>, runCount: map<K, nat>,
                          events: seq<Event<K, F>>, e: Event<K, F>)
    requires Recorded(duration, queued, runCount, events)
    ensures Recorded(if e.duration > 0.0 then Observe(duration, Fine(e.key, e.fine), e.duration) else duration,
                     if e.queued > 0.0 then Observe(queued, e.key, e.queued) else queued,
                     Bump(runCount, e.key), events + [e])
  {
    EventsSnoc(events, e);
    ObserveSummarises(duration, Durations(events), Fine(e.key, e.fine), e.duration);
    ObserveSummarises(queued, QueueTimes(events), e.key, e.queued);
    BumpCounts(runCount, Keys(events), e.key);
  }

  /** Observe a positive duration and a positive queue time, and count the run. */
  method RecordRun<K(==), F(==)>(duration: map<Fine<K, F>, Summary>, queued: map<K, Summary>, runCount: map<K, nat>,
                                 e: Event<K, F>, ghost events: seq<Event<K, F>>)
    returns (duration': map<Fine<K, F>, Summary>, queued': map<K, Summary>, runCount': map<K, nat>)
    requires Recorded(duration, queued, runCount, events)
    ensures Recorded(duration', queued', runCount', events + [e])
  {
    duration', queued' := duration, queued;
    if e.duration > 0.0 {
      duration' := Observe(duration, Fine(e.key, e.fine), e.duration);
    }
    if e.queued > 0.0 {
      queued' := Observe(queued, e.key, e.queued);
    }
    runCount' := Bump(runCount, e.key);
    RecordEvent(duration, queued, runCount, events, e);
  }

  /** How many events with this key have a positive duration. */
  ghost function Timed<K, F>(events: seq<Event<K, F>>, k: K): nat {
    if events == [] then 0
    else
      var e := events[|events| - 1];
      Timed(events[..|events| - 1], k) + if e.key == k && e.duration > 0.0 then 1 else 0
  }

  ghost function Queued<K, F>(events: seq<Event<K, F>>, k: K): nat {
    if events == [] then 0
    else
      var e := events[|events| - 1];
      Queued(events[..|events| - 1], k) + if e.key == k && e.queued > 0.0 then 1 else 0
  }

  /** The sum of their durations, and of their queue times. */
  ghost function TimedSum<K, F>(events: seq<Event<K, F>>, k: K): real {
    if events == [] then 0.0
    else
      var e := events[|events| - 1];
      TimedSum(events[..|events| - 1], k) + if e.key == k && e.duration > 0.0 then e.duration else 0.0
  }

  ghost function QueuedSum<K, F>(events: seq<Event<K, F>>, k: K): real {
    if events == [] then 0.0
    else
      var e := events[|events| - 1];
      QueuedSum(events[..|events| - 1], k) + if e.key == k && e.queued > 0.0 then e.queued else 0.0
  }

  lemma TimedSnoc<K, F>(events: seq<Event<K, F>>, e: Event<K, F>, k: K)
    ensures Timed(events + [e], k) == Timed(events, k) + if e.key == k && e.duration > 0.0 then 1 else 0
    ensures Queued(events + [e], k) == Queued(events, k) + if e.key == k && e.queued > 0.0 then 1 else 0
    ensures TimedSum(events + [e], k) == TimedSum(events, k) + if e.key == k && e.duration > 0.0 then e.duration else 0.0
    ensures QueuedSum(events + [e], k) == QueuedSum(events, k) + if e.key == k && e.queued > 0.0 then e.queued else 0.0
  {
    assert (events + [e])[..|events|] == events;
  }

  lemma KeyCountSnoc<K, F>(events: seq<Event<K, F>>, e: Event<K, F>, k: K)
    ensures multiset(Keys(events + [e]))[k] == multiset(Keys(events))[k] + if e.key == k then 1 else 0
  {
    assert Keys(events + [e]) == Keys(events) + [e.key];
  }

  /**
   * The events with this key stand for these records: as many of them, as many with a positive
   * duration or queue time, and the same sums of these.
   */
  ghost predicate Tells<K, F, R>(events: seq<Event<K, F>>, k: K, mine: seq<R>, duration: R -> real, queued: R -> real) {
    && multiset(Keys(events))[k] == |mine|
    && Timed(events, k) == Count(Positive(duration), mine)
    && TimedSum(events, k) == RealSum(duration, Filter(Positive(duration), mine))
    && Queued(events, k) == Count(Positive(queued), mine)
    && QueuedSum(events, k) == RealSum(queued, Filter(Positive(queued), mine))
  }

  lemma TellsSnoc<K, F, R>(events: seq<Event<K, F>>, k: K, mine: seq<R>, duration: R -> real, queued: R -> real,
                           e: Event<K, F>, r: R)
    requires Tells(events, k, mine, duration, queued)
    requires e.key == k ==> e.duration == duration(r) && e.queued == queued(r)
    ensures Tells(events + [e], k, if e.key == k then mine + [r] else mine, duration, queued)
  {
    TimedSnoc(events, e, k);
    KeyCountSnoc(events, e, k);
    if e.key == k {
      PositiveSnoc(duration, mine, r);
      PositiveSnoc(queued, mine, r);
    }
  }

  /** The positive durations under these labels are those of these records. */
  ghost predicate TellsChild<K, F, R>(events: seq<Event<K, F>>, d: Fine<K, F>, mine: seq<R>, duration: R -> real) {
    && multiset(KeysOf(Durations(events)))[d] == |mine|
    && SumFor(Durations(events), d) == RealSum(duration, mine)
  }

  lemma TellsChildSnoc<K, F, R>(events: seq<Event<K, F>>, d: Fine<K, F>, mine: seq<R>, duration: R -> real, e: Event<K, F>, r: R)
    requires TellsChild(events, d, mine, duration) && e.duration == duration(r)
    ensures TellsChild(events + [e], d, if e.duration > 0.0 && Fine(e.key, e.fine) == d then mine + [r] else mine, duration)
  {
    EventsSnoc(events, e);
    SamplesSnoc(Durations(events), Sample(Fine(e.key, e.fine), e.duration));
    RealSumSnoc(duration, mine, r);
  }

  /** What the metrics of a key say about the records behind it. */
  ghost predicate Reads<K, F, R>(duration: map<Fine<K, F>, Summary>, queued: map<K, Summary>, runCount: map<K, nat>, k: K,
                                 order: seq<Fine<K, F>>, mine: seq<R>, runTime: R -> real, queueTime: R -> real) {
    && (if k in runCount then runCount[k] else 0) == |mine|
    && CountOver(duration, order) == Count(Positive(runTime), mine) <= |mine|
    && SumOver(duration, order) == RealSum(runTime, Filter(Positive(runTime), mine))
    && (if k in queued then queued[k].count else 0) == Count(Positive(queueTime), mine) <= |mine|
    && (if k in queued then queued[k].sum else 0.0) == RealSum(queueTime, Filter(Positive(queueTime), mine))
  }

  /** order lists every duration histogram of this key once, whatever its further labels. */
  ghost predicate AllOfKey<K, F>(order: seq<Fine<K, F>>, duration: map<Fine<K, F>, Summary>, k: K) {
    RangeOrder(order, set d | d in duration.Keys && d.key == k)
  }

  lemma {:induction false} WithinTimed<K, F>(events: seq<Event<K, F>>, order: seq<Fine<K, F>>, k: K)
    requires forall d: Fine<K, F> :: d in KeysOf(Durations(events)) && d.key == k ==> d in order
    requires forall d: Fine<K, F> :: d in order ==> d.key == k
    ensures Within(KeysOf(Durations(events)), order) == Timed(events, k)
  {
    if events != [] {
      var front, e := events[..|events| - 1], events[|events| - 1];
      assert events == front + [e];
      EventsSnoc(front, e);
      if e.duration > 0.0 {
        var (before, d) := (KeysOf(Durations(front)), Fine(e.key, e.fine));
        assert KeysOf(Durations(events)) == before + [d];
        assert (before + [d])[..|before|] == before;
        assert d in before + [d];
      }
      WithinTimed(front, order, k);
    }
  }

  lemma {:induction false} WithinTimedSum<K, F>(events: seq<Event<K, F>>, order: seq<Fine<K, F>>, k: K)
    requires forall d: Fine<K, F> :: d in KeysOf(Durations(events)) && d.key == k ==> d in order
    requires forall d: Fine<K, F> :: d in order ==> d.key == k
    ensures SumWithin(Durations(events), order) == TimedSum(events, k)
  {
    if events != [] {
      var front, e := events[..|events| - 1], events[|events| - 1];
      assert events == front + [e];
      EventsSnoc(front, e);
      if e.duration > 0.0 {
        var (before, x) := (Durations(front), Sample(Fine(e.key, e.fine), e.duration));
        assert KeysOf(Durations(events)) == KeysOf(before) + [x.key];
        assert (before + [x])[..|before|] == before;
        assert x.key in KeysOf(before) + [x.key];
      }
      WithinTimedSum(front, order, k);
    }
  }

  lemma {:induction false} QueueSum<K, F>(events: seq<Event<K, F>>, k: K)
    ensures SumFor(QueueTimes(events), k) == QueuedSum(events, k)
  {
    if events != [] {
      var front, e := events[..|events| - 1], events[|events| - 1];
      assert events == front + [e];
      EventsSnoc(front, e);
      QueueSum(front, k);
      if e.queued > 0.0 {
        var before := QueueTimes(front);
        assert (before + [Sample(e.key, e.queued)])[..|before|] == before;
      }
    }
  }

  lemma {:induction false} PositiveWithinAll<K, F>(events: seq<Event<K, F>>, k: K)
    ensures Timed(events, k) <= multiset(Keys(events))[k]
    ensures Queued(events, k) <= multiset(Keys(events))[k]
    ensures multiset(KeysOf(QueueTimes(events)))[k] == Queued(events, k)
  {
    if events != [] {
      var front, e := events[..|events| - 1], events[|events| - 1];
      assert events == front + [e];
      EventsSnoc(front, e);
      PositiveWithinAll(front, k);
      if e.queued > 0.0 {
        assert KeysOf(QueueTimes(events)) == KeysOf(QueueTimes(front)) + [e.key];
      }
    }
  }

  lemma {:induction false} DurationKeysCounted<K, F>(events: seq<Event<K, F>>, d: Fine<K, F>)
    requires d in KeysOf(Durations(events))
    ensures d.key in Keys(events)
  {
    if events != [] {
      var front, e := events[..|events| - 1], events[|events| - 1];
      assert events == front + [e];
      EventsSnoc(front, e);
      if e.duration > 0.0 {
        assert KeysOf(Durations(events)) == KeysOf(Durations(front)) + [Fine(e.key, e.fine)];
      }
      if d in KeysOf(Durations(front)) {
        DurationKeysCounted(front, d);
      }
    }
  }

  lemma {:induction false} QueueKeysCounted<K, F>(events: seq<Event<K, F>>, k: K)
    requires k in KeysOf(QueueTimes(events))
    ensures k in Keys(events)
  {
    if events != [] {
      var front, e := events[..|events| - 1], events[|events| - 1];
      assert events == front + [e];
      EventsSnoc(front, e);
      if e.queued > 0.0 {
        assert KeysOf(QueueTimes(events)) == KeysOf(QueueTimes(front)) + [e.key];
      }
      if k in KeysOf(QueueTimes(front)) {
        QueueKeysCounted(front, k);
      }
    }
  }

  /** No histogram without a run: a key with any histogram has been counted. */
  lemma ObservedMeansRun<K, F>(duration: map<Fine<K, F>, Summary>, queued: map<K, Summary>, runCount: map<K, nat>,
                               events: seq<Event<K, F>>, k: K, order: seq<Fine<K, F>>)
    requires Recorded(duration, queued, runCount, events) && AllOfKey(order, duration, k)
    ensures order != [] || k in queued ==> k in runCount && runCount[k] > 0
  {
    if order != [] {
      assert order[0] in duration.Keys && order[0].key == k;
      assert order[0] in Elements(KeysOf(Durations(events)));
      DurationKeysCounted(events, order[0]);
      assert k in Elements(Keys(events));
    }
    if k in queued {
      assert k in Elements(KeysOf(QueueTimes(events)));
      QueueKeysCounted(events, k);
      assert k in Elements(Keys(events));
    }
  }

  /**
   * For every key: the run count is the number of its events; its duration histograms, added up over
   * all further labels in any order, count the events with a positive duration and sum these, its
   * queue histogram those with a positive queue time, and neither exceeds the run count.
   */
  lemma MetricsAgree<K, F>(duration: map<Fine<K, F>, Summary>, queued: map<K, Summary>, runCount: map<K, nat>,
                           events: seq<Event<K, F>>, k: K, order: seq<Fine<K, F>>)
    requires Recorded(duration, queued, runCount, events) && AllOfKey(order, duration, k)
    ensures (if k in runCount then runCount[k] else 0) == multiset(Keys(events))[k]
    ensures CountOver(duration, order) == Timed(events, k) <= multiset(Keys(events))[k]
    ensures (if k in queued then queued[k].count else 0) == Queued(events, k) <= multiset(Keys(events))[k]
    ensures SumOver(duration, order) == TimedSum(events, k)
    ensures (if k in queued then queued[k].sum else 0.0) == QueuedSum(events, k)
  {
    var samples := Durations(events);
    assert k in Elements(Keys(events)) <==> k in runCount;
    assert k in Elements(KeysOf(QueueTimes(events))) <==> k in queued;
    PositiveWithinAll(events, k);
    CountOverIsWithin(duration, samples, order);
    forall d: Fine<K, F> | d in KeysOf(samples) && d.key == k
      ensures d in order
    {
      assert d in Elements(KeysOf(samples));
    }
    WithinTimed(events, order, k);
    SumOverIsWithin(duration, samples, order);
    WithinTimedSum(events, order, k);
    SumIn(queued, QueueTimes(events), k);
    QueueSum(events, k);
  }

  /** The metrics of a key count and sum what its records had. */
  lemma MetricsRead<K, F, R>(duration: map<Fine<K, F>, Summary>, queued: map<K, Summary>, runCount: map<K, nat>,
                             events: seq<Event<K, F>>, k: K, order: seq<Fine<K, F>>, mine: seq<R>,
                             runTime: R -> real, queueTime: R -> real)
    requires Recorded(duration, queued, runCount, events) && AllOfKey(order, duration, k)
    requires Tells(events, k, mine, runTime, queueTime)
    ensures Reads(duration, queued, runCount, k, order, mine, runTime, queueTime)
  {
    MetricsAgree(duration, queued, runCount, events, k, order);
  }
}
