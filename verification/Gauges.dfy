/** Gauges emitted by ranging over counting maps, one project after another. */
module Gauges {
  import opened Prelude
  import opened Tally

  datatype Gauge = Gauge(labels: seq<string>, value: nat)

  /** One project's counting map: labels is the list of counted label tuples, with repetitions. */
  datatype Batch = Batch(project: string, tuples: seq<seq<string>>)

  /** The keys of a batch's counting map. */
  ghost function Keys(batch: Batch): set<seq<string>> {
    Elements(batch.tuples)
  }

  /** The gauges emitted when the map is visited in this order. */
  function Emission(batch: Batch, order: seq<seq<string>>): (gauges: seq<Gauge>)
    ensures |gauges| == |order|
  {
    seq(|order|, i requires 0 <= i < |order| =>
      Gauge([batch.project] + order[i], multiset(batch.tuples)[order[i]]))
  }

  /** segment is what one project emits, in some map iteration order. */
  ghost predicate Emits(segment: seq<Gauge>, batch: Batch) {
    exists order :: RangeOrder(order, Keys(batch)) && segment == Emission(batch, order)
  }

  /** gauges is what the projects emit one after another. */
  ghost predicate EmitsAll(gauges: seq<Gauge>, batches: seq<Batch>)
    decreases |batches|
  {
    if batches == [] then gauges == []
    else
      exists cut :: 0 <= cut <= |gauges|
        && Emits(gauges[cut..], batches[|batches| - 1])
        && EmitsAll(gauges[..cut], batches[..|batches| - 1])
  }

  lemma EmitsAllSnoc(gauges: seq<Gauge>, batches: seq<Batch>, segment: seq<Gauge>, batch: Batch)
    requires EmitsAll(gauges, batches) && Emits(segment, batch)
    ensures EmitsAll(gauges + segment, batches + [batch])
  {
    var all, bs := gauges + segment, batches + [batch];
    assert all[|gauges|..] == segment && all[..|gauges|] == gauges;
    assert bs[..|bs| - 1] == batches;
  }

  /** Sum of the gauges whose first label is this project. */
  ghost function ProjectSum(gauges: seq<Gauge>, project: string): nat {
    if gauges == [] then 0
    else
      var g := gauges[|gauges| - 1];
      ProjectSum(gauges[..|gauges| - 1], project) + if [project] <= g.labels then g.value else 0
  }

  /** Number of tuples counted for this project. */
  ghost function ProjectTuples(batches: seq<Batch>, project: string): nat {
    if batches == [] then 0
    else
      var b := batches[|batches| - 1];
      ProjectTuples(batches[..|batches| - 1], project) + if b.project == project then |b.tuples| else 0
  }

  /** Sum of the gauges with exactly these labels: one value when labels are distinct. */
  ghost function Reading(gauges: seq<Gauge>, labels: seq<string>): nat {
    if gauges == [] then 0
    else
      var g := gauges[|gauges| - 1];
      Reading(gauges[..|gauges| - 1], labels) + if g.labels == labels then g.value else 0
  }

  /** How often this tuple was counted for this project. */
  ghost function TupleCount(batches: seq<Batch>, project: string, tuple: seq<string>): nat {
    if batches == [] then 0
    else
      var b := batches[|batches| - 1];
      TupleCount(batches[..|batches| - 1], project, tuple)
      + if b.project == project then multiset(b.tuples)[tuple] else 0
  }

  lemma TupleCountSnoc(batches: seq<Batch>, b: Batch, project: string, tuple: seq<string>)
    ensures TupleCount(batches + [b], project, tuple) ==
            TupleCount(batches, project, tuple) + if b.project == project then multiset(b.tuples)[tuple] else 0
  {
    assert (batches + [b])[..|batches|] == batches;
  }

  ghost predicate LabelsDistinct(gauges: seq<Gauge>) {
    forall i, j :: 0 <= i < j < |gauges| ==> gauges[i].labels != gauges[j].labels
  }

  lemma {:induction false} ProjectSumConcat(a: seq<Gauge>, b: seq<Gauge>, project: string)
    ensures ProjectSum(a + b, project) == ProjectSum(a, project) + ProjectSum(b, project)
  {
    if b == [] {
      assert a + b == a;
    } else {
      assert (a + b)[..|a + b| - 1] == a + b[..|b| - 1];
      ProjectSumConcat(a, b[..|b| - 1], project);
    }
  }

  lemma {:induction false} ReadingConcat(a: seq<Gauge>, b: seq<Gauge>, labels: seq<string>)
    ensures Reading(a + b, labels) == Reading(a, labels) + Reading(b, labels)
  {
    if b == [] {
      assert a + b == a;
    } else {
      assert (a + b)[..|a + b| - 1] == a + b[..|b| - 1];
      ReadingConcat(a, b[..|b| - 1], labels);
    }
  }

  lemma {:induction false} EmissionSum(batch: Batch, order: seq<seq<string>>, project: string)
    ensures ProjectSum(Emission(batch, order), project) ==
            if batch.project == project then Total(batch.tuples, order) else 0
  {
    if order != [] {
      var n := |order| - 1;
      assert Emission(batch, order)[..n] == Emission(batch, order[..n]);
      EmissionSum(batch, order[..n], project);
      var labels := [batch.project] + order[n];
      assert labels[0] == batch.project;
      assert [project] <= labels <==> batch.project == project;
    }
  }

  lemma {:induction false} EmissionReading(batch: Batch, order: seq<seq<string>>, project: string, tuple: seq<string>)
    requires Distinct(order)
    ensures Reading(Emission(batch, order), [project] + tuple) ==
            if batch.project == project && tuple in order then multiset(batch.tuples)[tuple] else 0
  {
    if order != [] {
      var n := |order| - 1;
      assert order == order[..n] + [order[n]];
      assert Emission(batch, order)[..n] == Emission(batch, order[..n]);
      EmissionReading(batch, order[..n], project, tuple);
      SameLabels(batch.project, order[n], project, tuple);
    }
  }

  lemma SameLabels(p: string, t: seq<string>, q: string, u: seq<string>)
    ensures [p] + t == [q] + u <==> p == q && t == u
  {
    assert ([p] + t)[0] == p && ([q] + u)[0] == q;
    assert ([p] + t)[1..] == t && ([q] + u)[1..] == u;
  }

  lemma SegmentSum(segment: seq<Gauge>, batch: Batch, project: string)
    requires Emits(segment, batch)
    ensures ProjectSum(segment, project) == if batch.project == project then |batch.tuples| else 0
  {
    var order :| RangeOrder(order, Keys(batch)) && segment == Emission(batch, order);
    EmissionSum(batch, order, project);
    TotalCovers(batch.tuples, order);
  }

  lemma SegmentReading(segment: seq<Gauge>, batch: Batch, project: string, tuple: seq<string>)
    requires Emits(segment, batch)
    ensures Reading(segment, [project] + tuple) ==
            if batch.project == project then multiset(batch.tuples)[tuple] else 0
  {
    var order :| RangeOrder(order, Keys(batch)) && segment == Emission(batch, order);
    EmissionReading(batch, order, project, tuple);
    assert tuple in order <==> tuple in Keys(batch);
  }

  lemma SegmentPresent(segment: seq<Gauge>, batch: Batch, project: string, tuple: seq<string>)
    requires Emits(segment, batch)
    ensures Present(segment, [project] + tuple) <==> batch.project == project && multiset(batch.tuples)[tuple] > 0
  {
    var order :| RangeOrder(order, Keys(batch)) && segment == Emission(batch, order);
    EmissionPresent(batch, order, project, tuple);
    assert tuple in order <==> tuple in Keys(batch);
  }

  lemma SegmentLabels(segment: seq<Gauge>, batch: Batch)
    requires Emits(segment, batch)
    ensures LabelsDistinct(segment)
    ensures forall i :: 0 <= i < |segment| ==> [batch.project] <= segment[i].labels
  {
    var order :| RangeOrder(order, Keys(batch)) && segment == Emission(batch, order);
    forall i, j | 0 <= i < j < |segment|
      ensures segment[i].labels != segment[j].labels
    {
      SameLabels(batch.project, order[i], batch.project, order[j]);
    }
  }

  /** The last project's share of everything emitted. */
  lemma LastSegment(gauges: seq<Gauge>, batches: seq<Batch>) returns (front: seq<Gauge>, segment: seq<Gauge>)
    requires EmitsAll(gauges, batches) && batches != []
    ensures EmitsAll(front, batches[..|batches| - 1])
    ensures Emits(segment, batches[|batches| - 1])
    ensures gauges == front + segment
  {
    var n := |batches| - 1;
    var cut :| 0 <= cut <= |gauges| && Emits(gauges[cut..], batches[n]) && EmitsAll(gauges[..cut], batches[..n]);
    front, segment := gauges[..cut], gauges[cut..];
  }

  /** Conservation: a project's gauges add up to the tuples counted for it, in every iteration order. */
  lemma {:induction false} GaugesConserve(gauges: seq<Gauge>, batches: seq<Batch>, project: string)
    requires EmitsAll(gauges, batches)
    ensures ProjectSum(gauges, project) == ProjectTuples(batches, project)
    decreases |batches|
  {
    if batches != [] {
      var front, segment := LastSegment(gauges, batches);
      GaugesConserve(front, batches[..|batches| - 1], project);
      SegmentSum(segment, batches[|batches| - 1], project);
      ProjectSumConcat(front, segment, project);
    }
  }

  /** Every tuple reads as the number of times it was counted. */
  lemma {:induction false} GaugesRead(gauges: seq<Gauge>, batches: seq<Batch>, project: string, tuple: seq<string>)
    requires EmitsAll(gauges, batches)
    ensures Reading(gauges, [project] + tuple) == TupleCount(batches, project, tuple)
    decreases |batches|
  {
    if batches != [] {
      var last, rest, labels := batches[|batches| - 1], batches[..|batches| - 1], [project] + tuple;
      var front, segment := LastSegment(gauges, batches);
      GaugesRead(front, rest, project, tuple);
      SegmentReading(segment, last, project, tuple);
      ReadingConcat(front, segment, labels);
      assert TupleCount(batches, project, tuple) ==
             TupleCount(rest, project, tuple) + if last.project == project then multiset(last.tuples)[tuple] else 0;
    }
  }

  /** A tuple has a gauge exactly when it was counted at least once. */
  lemma {:induction false} GaugesPresent(gauges: seq<Gauge>, batches: seq<Batch>, project: string, tuple: seq<string>)
    requires EmitsAll(gauges, batches)
    ensures Present(gauges, [project] + tuple) <==> TupleCount(batches, project, tuple) > 0
    decreases |batches|
  {
    if batches != [] {
      var front, segment := LastSegment(gauges, batches);
      GaugesPresent(front, batches[..|batches| - 1], project, tuple);
      SegmentPresent(segment, batches[|batches| - 1], project, tuple);
      PresentConcat(front, segment, [project] + tuple);
    }
  }

  ghost predicate Present(gauges: seq<Gauge>, labels: seq<string>) {
    exists g :: g in gauges && g.labels == labels
  }

  lemma PresentConcat(a: seq<Gauge>, b: seq<Gauge>, labels: seq<string>)
    ensures Present(a + b, labels) <==> Present(a, labels) || Present(b, labels)
  {
    if g :| g in a && g.labels == labels {
      assert g in a + b;
    }
    if g :| g in b && g.labels == labels {
      assert g in a + b;
    }
  }

  lemma EmissionPresent(batch: Batch, order: seq<seq<string>>, project: string, tuple: seq<string>)
    ensures Present(Emission(batch, order), [project] + tuple) <==> batch.project == project && tuple in order
  {
    var gauges := Emission(batch, order);
    if g :| g in gauges && g.labels == [project] + tuple {
      var i :| 0 <= i < |gauges| && gauges[i] == g;
      SameLabels(batch.project, order[i], project, tuple);
    }
    if batch.project == project && tuple in order {
      var i :| 0 <= i < |order| && order[i] == tuple;
      assert gauges[i] in gauges && gauges[i].labels == [project] + tuple;
    }
  }

  ghost predicate ProjectsDistinct(batches: seq<Batch>) {
    forall i, j :: 0 <= i < j < |batches| ==> batches[i].project != batches[j].project
  }

  /** Batches of distinct projects among the first n listed. */
  ghost predicate BatchesOf(batches: seq<Batch>, projects: seq<string>, n: nat)
    requires n <= |projects|
  {
    ProjectsDistinct(batches) && forall i :: 0 <= i < |batches| ==> batches[i].project in projects[..n]
  }

  lemma BatchesOfNext(batches: seq<Batch>, projects: seq<string>, n: nat, b: Batch)
    requires 0 < n <= |projects| && Distinct(projects)
    requires BatchesOf(batches, projects, n - 1) && b.project == projects[n - 1]
    ensures BatchesOf(batches, projects, n) && BatchesOf(batches + [b], projects, n)
  {
    assert projects[..n] == projects[..n - 1] + [projects[n - 1]];
    assert b.project !in projects[..n - 1];
  }

  /** With pairwise distinct projects no two gauges carry the same labels, whatever the iteration orders. */
  lemma {:induction false} NoDuplicateSeries(gauges: seq<Gauge>, batches: seq<Batch>)
    requires EmitsAll(gauges, batches) && ProjectsDistinct(batches)
    ensures LabelsDistinct(gauges)
    ensures AllOwned(gauges, batches)
    decreases |batches|
  {
    if batches != [] {
      var n := |batches| - 1;
      var front, segment := LastSegment(gauges, batches);
      NoDuplicateSeries(front, batches[..n]);
      SegmentLabels(segment, batches[n]);
      OwnedConcat(front, segment, batches);
      OtherOwners(front, segment, batches);
      LabelsDistinctConcat(front, segment);
    }
  }

  lemma LabelsDistinctConcat(a: seq<Gauge>, b: seq<Gauge>)
    requires LabelsDistinct(a) && LabelsDistinct(b)
    requires forall i, j :: 0 <= i < |a| && 0 <= j < |b| ==> a[i].labels != b[j].labels
    ensures LabelsDistinct(a + b)
  {
  }

  lemma OwnedConcat(front: seq<Gauge>, segment: seq<Gauge>, batches: seq<Batch>)
    requires batches != [] && AllOwned(front, batches[..|batches| - 1])
    requires forall i :: 0 <= i < |segment| ==> [batches[|batches| - 1].project] <= segment[i].labels
    ensures AllOwned(front + segment, batches)
  {
    forall i | 0 <= i < |front + segment|
      ensures Owned((front + segment)[i], batches)
    {
      if i < |front| {
        OwnedMore(front[i], batches);
      }
    }
  }

  lemma OtherOwners(front: seq<Gauge>, segment: seq<Gauge>, batches: seq<Batch>)
    requires batches != [] && AllOwned(front, batches[..|batches| - 1]) && ProjectsDistinct(batches)
    requires forall i :: 0 <= i < |segment| ==> [batches[|batches| - 1].project] <= segment[i].labels
    ensures forall i, j :: 0 <= i < |front| && 0 <= j < |segment| ==> front[i].labels != segment[j].labels
  {
    forall i, j | 0 <= i < |front| && 0 <= j < |segment|
      ensures front[i].labels != segment[j].labels
    {
      OtherOwner(front[i], segment[j], batches);
    }
  }

  lemma OwnedMore(g: Gauge, batches: seq<Batch>)
    requires batches != [] && Owned(g, batches[..|batches| - 1])
    ensures Owned(g, batches)
  {
    var k :| 0 <= k < |batches| - 1 && [batches[..|batches| - 1][k].project] <= g.labels;
    assert [batches[k].project] <= g.labels;
  }

  lemma OtherOwner(g: Gauge, h: Gauge, batches: seq<Batch>)
    requires batches != [] && Owned(g, batches[..|batches| - 1])
    requires [batches[|batches| - 1].project] <= h.labels
    requires ProjectsDistinct(batches)
    ensures g.labels != h.labels
  {
    var k :| 0 <= k < |batches| - 1 && [batches[..|batches| - 1][k].project] <= g.labels;
    assert g.labels[0] == batches[k].project && h.labels[0] == batches[|batches| - 1].project;
  }

  /** The gauge's first label is one of the projects. */
  ghost predicate Owned(g: Gauge, batches: seq<Batch>) {
    exists k :: 0 <= k < |batches| && [batches[k].project] <= g.labels
  }

  ghost predicate AllOwned(gauges: seq<Gauge>, batches: seq<Batch>) {
    forall i :: 0 <= i < |gauges| ==> Owned(gauges[i], batches)
  }

  /** `for key, count := range counts { append(gauges, ...) }` over a map with one-label keys. */
  method AppendCounts(gauges: seq<Gauge>, project: string, counts: map<string, nat>,
                      ghost keys: seq<string>, ghost batches: seq<Batch>)
    returns (gauges': seq<Gauge>)
    requires EmitsAll(gauges, batches) && Counts(counts, keys)
    ensures EmitsAll(gauges', batches + [Batch(project, Singles(keys))])
  {
    var segment: seq<Gauge> := [];
    ghost var batch, order := Batch(project, Singles(keys)), [];
    var todo := counts.Keys;
    while todo != {}
      invariant RangeOrder(order, set k | k in counts.Keys - todo :: [k])
      invariant todo <= counts.Keys
      invariant segment == Emission(batch, order)
      decreases todo
    {
      var key :| key in todo;
      SinglesCount(keys, key);
      forall k | k in counts.Keys
        ensures [k] == [key] <==> k == key
      {
        SameLabels(k, [], key, []);
      }
      segment := segment + [Gauge([project, key], counts[key])];
      assert [project] + [key] == [project, key];
      order := order + [[key]];
      todo := todo - {key};
    }
    SinglesSet(keys);
    assert counts.Keys - todo == counts.Keys;
    assert Emits(segment, batch);
    gauges' := gauges + segment;
    EmitsAllSnoc(gauges, batches, segment, batch);
  }

  /** Each key as a one-element label tuple. */
  ghost function Singles(keys: seq<string>): (tuples: seq<seq<string>>)
    ensures |tuples| == |keys|
  {
    seq(|keys|, i requires 0 <= i < |keys| => [keys[i]])
  }

  lemma {:induction false} SinglesCount(keys: seq<string>, key: string)
    ensures multiset(Singles(keys))[[key]] == multiset(keys)[key]
  {
    if keys != [] {
      var n := |keys| - 1;
      SinglesCount(keys[..n], key);
      assert Singles(keys) == Singles(keys[..n]) + [[keys[n]]];
      assert keys == keys[..n] + [keys[n]];
      SameLabels(keys[n], [], key, []);
    }
  }

  lemma SinglesSet(keys: seq<string>)
    ensures Elements(Singles(keys)) == set k | k in Elements(keys) :: [k]
  {
    forall k | k in keys
      ensures [k] in Singles(keys)
    {
      var i :| 0 <= i < |keys| && keys[i] == k;
      assert Singles(keys)[i] == [k];
    }
  }
}
