/** internal/collector/pipelines.go: pipeline counters and histograms with a derived kind, and child pipelines. */
module Pipelines {
  import opened Prelude
  import opened Tally
  import opened Metrics
  import Decimal

  /** coverage is None when it is empty or no number; createdAt is in Unix seconds. */
  datatype Pipeline = Pipeline(id: int, ref: string, source: string, status: string, duration: int, queuedDuration: int,
                               coverage: Option<real>, createdAt: Option<int>)

  datatype PipelineKey = PipelineKey(project: string, ref: string, kind: string, source: string)
  datatype StatusKey = StatusKey(pipeline: PipelineKey, status: string)
  datatype RefKey = RefKey(project: string, ref: string, kind: string)

  datatype ChildKey = ChildKey(project: string, ref: string, parentProject: string, parentRef: string, bridge: string)
  /** The child histograms have no labels beyond the counter's. */
  datatype NoLabels = NoLabels

  datatype ChildStatus = ChildStatus(child: ChildKey, status: string)

  /** times is what fetching the full child pipeline gives: duration and queue time, or None on failure. */
  datatype Downstream = Downstream(projectId: nat, ref: string, status: string, times: Option<(int, int)>)

  datatype Bridge = Bridge(name: string, downstream: Option<Downstream>)

  /** One call of recordPipeline. */
  datatype Record = Record(project: string, pipeline: Pipeline)

  /** One bridge job of a parent pipeline. */
  datatype Visit = Visit(project: string, parentRef: string, bridge: Bridge)

  function PipelineKind(source: string): string {
    if source == "parent_pipeline" then "child"
    else if source == "trigger" || source == "pipeline" then "trigger"
    else if source == "merge_request_event" then "merge_request"
    else if source == "schedule" then "schedule"
    else "branch"
  }

  // ---------- What a history of records should leave behind

  function KeyOf(r: Record): PipelineKey {
    PipelineKey(r.project, r.pipeline.ref, PipelineKind(r.pipeline.source), r.pipeline.source)
  }

  function RefKeyOf(r: Record): RefKey {
    RefKey(r.project, r.pipeline.ref, PipelineKind(r.pipeline.source))
  }

  function EventOf(r: Record): Event<PipelineKey, string> {
    Event(KeyOf(r), r.pipeline.status, r.pipeline.duration as real, r.pipeline.queuedDuration as real)
  }

  ghost function Events(records: seq<Record>): (es: seq<Event<PipelineKey, string>>)
    ensures |es| == |records|
  {
    Map(EventOf, records)
  }

  ghost function Statuses(records: seq<Record>): set<StatusKey> {
    set r | r in records :: StatusKey(KeyOf(r), r.pipeline.status)
  }

  /** The values set on the coverage, id and creation-time gauges. */
  ghost function Coverages(records: seq<Record>): seq<Sample<RefKey>> {
    if records == [] then []
    else
      var (front, r) := (Coverages(records[..|records| - 1]), records[|records| - 1]);
      if r.pipeline.coverage.Some? then front + [Sample(RefKeyOf(r), r.pipeline.coverage.value)] else front
  }

  ghost function Ids(records: seq<Record>): (ids: seq<Sample<RefKey>>)
    ensures |ids| == |records|
  {
    Map((r: Record) => Sample(RefKeyOf(r), r.pipeline.id as real), records)
  }

  ghost function Creations(records: seq<Record>): seq<Sample<RefKey>> {
    if records == [] then []
    else
      var (front, r) := (Creations(records[..|records| - 1]), records[|records| - 1]);
      if r.pipeline.createdAt.Some? then front + [Sample(RefKeyOf(r), r.pipeline.createdAt.value as real)] else front
  }

  lemma RecordsSnoc(records: seq<Record>, r: Record)
    ensures Events(records + [r]) == Events(records) + [EventOf(r)]
    ensures Statuses(records + [r]) == Statuses(records) + {StatusKey(KeyOf(r), r.pipeline.status)}
  {
  }

  lemma GaugesSnoc(records: seq<Record>, r: Record)
    ensures Latest(Coverages(records + [r])) ==
            if r.pipeline.coverage.Some? then Latest(Coverages(records))[RefKeyOf(r) := r.pipeline.coverage.value]
            else Latest(Coverages(records))
    ensures Latest(Ids(records + [r])) == Latest(Ids(records))[RefKeyOf(r) := r.pipeline.id as real]
    ensures Latest(Creations(records + [r])) ==
            if r.pipeline.createdAt.Some? then Latest(Creations(records))[RefKeyOf(r) := r.pipeline.createdAt.value as real]
            else Latest(Creations(records))
  {
    assert (records + [r])[..|records|] == records;
    if r.pipeline.coverage.Some? {
      LatestSnoc(Coverages(records), RefKeyOf(r), r.pipeline.coverage.value);
    }
    assert Ids(records + [r]) == Ids(records) + [Sample(RefKeyOf(r), r.pipeline.id as real)];
    LatestSnoc(Ids(records), RefKeyOf(r), r.pipeline.id as real);
    if r.pipeline.createdAt.Some? {
      LatestSnoc(Creations(records), RefKeyOf(r), r.pipeline.createdAt.value as real);
    }
  }

  /** The child project label: its id in decimal, or "" for 0. */
  function ChildProject(d: Downstream): string {
    if d.projectId == 0 then "" else Decimal.Print(d.projectId)
  }

  function ChildKeyOf(v: Visit): ChildKey
    requires v.bridge.downstream.Some?
  {
    var d := v.bridge.downstream.value;
    ChildKey(ChildProject(d), d.ref, v.project, v.parentRef, v.bridge.name)
  }

  /** What one bridge records; a bridge that triggered nothing records nothing. */
  function ChildEvents(v: Visit): seq<Event<ChildKey, NoLabels>> {
    if v.bridge.downstream.None? then []
    else
      var d := v.bridge.downstream.value;
      var (duration, queued) := if d.projectId != 0 && d.times.Some? then d.times.value else (0, 0);
      [Event(ChildKeyOf(v), NoLabels, duration as real, queued as real)]
  }

  ghost function AllChildEvents(visits: seq<Visit>): seq<Event<ChildKey, NoLabels>> {
    if visits == [] then [] else AllChildEvents(visits[..|visits| - 1]) + ChildEvents(visits[|visits| - 1])
  }

  /** The status gauges that these bridges set. */
  ghost function AllChildStatuses(visits: seq<Visit>): set<ChildStatus> {
    set v | v in visits && v.bridge.downstream.Some? :: ChildStatus(ChildKeyOf(v), v.bridge.downstream.value.status)
  }

  lemma VisitsSnoc(visits: seq<Visit>, v: Visit)
    ensures AllChildEvents(visits + [v]) == AllChildEvents(visits) + ChildEvents(v)
    ensures AllChildStatuses(visits + [v]) ==
            if v.bridge.downstream.Some? then
              AllChildStatuses(visits) + {ChildStatus(ChildKeyOf(v), v.bridge.downstream.value.status)}
            else AllChildStatuses(visits)
  {
    assert (visits + [v])[..|visits|] == visits;
  }

  function Visits(project: string, parentRef: string, bridges: seq<Bridge>): (vs: seq<Visit>)
    ensures |vs| == |bridges|
  {
    Map((b: Bridge) => Visit(project, parentRef, b), bridges)
  }

  // ---------- The collector

  class PipelinesCollector {
    var duration: map<Fine<PipelineKey, string>, Summary>
    var queuedDuration: map<PipelineKey, Summary>
    var status: set<StatusKey>           // the gauges that have been set to 1
    var runCount: map<PipelineKey, nat>
    var coverage: map<RefKey, real>
    var id: map<RefKey, real>
    var createdAt: map<RefKey, real>
    var childDuration: map<Fine<ChildKey, NoLabels>, Summary>
    var childQueuedDuration: map<ChildKey, Summary>
    var childStatus: set<ChildStatus>
    var childRunCount: map<ChildKey, nat>
    ghost var records: seq<Record>
    ghost var visits: seq<Visit>

    /** The pipeline metrics are what the recorded pipelines leave behind. */
    ghost predicate PipelinesValid()
      reads this
    {
      RunsHold(records) && GaugesHold(records)
    }

    ghost predicate RunsHold(records: seq<Record>)
      reads this`duration, this`queuedDuration, this`runCount, this`status
    {
      Recorded(duration, queuedDuration, runCount, Events(records)) && status == Statuses(records)
    }

    /** The gauges per ref hold what these records set last. */
    ghost predicate GaugesHold(records: seq<Record>)
      reads this`coverage, this`id, this`createdAt
    {
      coverage == Latest(Coverages(records)) && id == Latest(Ids(records)) && createdAt == Latest(Creations(records))
    }

    /** The child metrics are what the visited bridges leave behind. */
    ghost predicate ChildrenValid()
      reads this
    {
      && Recorded(childDuration, childQueuedDuration, childRunCount, AllChildEvents(visits))
      && childStatus == AllChildStatuses(visits)
    }

    ghost predicate Valid()
      reads this
    {
      PipelinesValid() && ChildrenValid()
    }

    constructor ()
      ensures Valid() && records == [] && visits == []
    {
      duration, queuedDuration, status, runCount := map[], map[], {}, map[];
      coverage, id, createdAt := map[], map[], map[];
      childDuration, childQueuedDuration, childStatus, childRunCount := map[], map[], {}, map[];
      records, visits := [], [];
    }

    method RecordPipeline(project: string, p: Pipeline)
      requires PipelinesValid()
      modifies this`duration, this`queuedDuration, this`status, this`runCount,
               this`coverage, this`id, this`createdAt, this`records
      ensures PipelinesValid() && records == old(records) + [Record(project, p)]
    {
      ghost var r := Record(project, p);
      var kind := PipelineKind(p.source);
      var key, ref := PipelineKey(project, p.ref, kind, p.source), RefKey(project, p.ref, kind);
      var e := Event(key, p.status, p.duration as real, p.queuedDuration as real);
      CountRun(e, records, r);
      SetGauges(ref, p, records, r);
      records := records + [r];
    }

    method CountRun(e: Event<PipelineKey, string>, ghost before: seq<Record>, ghost r: Record)
      requires RunsHold(before) && e == EventOf(r)
      modifies this`duration, this`queuedDuration, this`runCount, this`status
      ensures RunsHold(before + [r])
    {
      RecordsSnoc(before, r);
      duration, queuedDuration, runCount := RecordRun(duration, queuedDuration, runCount, e, Events(before));
      status := status + {StatusKey(e.key, e.fine)};
    }

    method SetGauges(ref: RefKey, p: Pipeline, ghost before: seq<Record>, ghost r: Record)
      requires GaugesHold(before) && r.pipeline == p && RefKeyOf(r) == ref
      modifies this`coverage, this`id, this`createdAt
      ensures GaugesHold(before + [r])
    {
      GaugesSnoc(before, r);
      if p.coverage.Some? {
        coverage := coverage[ref := p.coverage.value];
      }
      id := id[ref := p.id as real];
      if p.createdAt.Some? {
        createdAt := createdAt[ref := p.createdAt.value as real];
      }
    }

    method RecordChild(project: string, parentRef: string, b: Bridge)
      requires ChildrenValid()
      modifies this`childDuration, this`childQueuedDuration, this`childStatus, this`childRunCount, this`visits
      ensures ChildrenValid() && visits == old(visits) + [Visit(project, parentRef, b)]
    {
      VisitsSnoc(visits, Visit(project, parentRef, b));
      ghost var events := AllChildEvents(visits);
      visits := visits + [Visit(project, parentRef, b)];
      if b.downstream.None? {
        assert events + [] == events;
        return;
      }
      var d := b.downstream.value;
      var childProject := "";
      if d.projectId != 0 {
        childProject := Decimal.Print(d.projectId);
      }
      var seconds, queued := 0, 0;
      if childProject != "" {
        if d.times.Some? {
          seconds, queued := d.times.value.0, d.times.value.1;
        }
      }
      var key := ChildKey(childProject, d.ref, project, parentRef, b.name);
      var e := Event(key, NoLabels, seconds as real, queued as real);
      childDuration, childQueuedDuration, childRunCount :=
        RecordRun(childDuration, childQueuedDuration, childRunCount, e, events);
      childStatus := childStatus + {ChildStatus(key, d.status)};
    }

    /** None is a failed bridge listing. */
    method CollectChildPipelines(project: string, parentRef: string, bridges: Option<seq<Bridge>>)
      requires ChildrenValid()
      modifies this`childDuration, this`childQueuedDuration, this`childStatus, this`childRunCount, this`visits
      ensures ChildrenValid()
      ensures visits == old(visits) + Visits(project, parentRef, bridges.GetOr([]))
    {
      if bridges.None? {
        return;
      }
      ghost var all := Visits(project, parentRef, bridges.value);
      for i := 0 to |bridges.value|
        invariant ChildrenValid()
        invariant visits == old(visits) + all[..i]
      {
        ConcatAssociates(old(visits), all[..i], [all[i]]);
        assert all[..i + 1] == all[..i] + [all[i]];
        RecordChild(project, parentRef, bridges.value[i]);
      }
      assert all[..|all|] == all;
    }
  }

  // ---------- Agreement of the metrics with the recorded pipelines

  /** Which sources have which kind. */
  lemma PipelineKinds(source: string)
    ensures PipelineKind(source) == "child" <==> source == "parent_pipeline"
    ensures PipelineKind(source) == "trigger" <==> source in ["trigger", "pipeline"]
    ensures PipelineKind(source) == "merge_request" <==> source == "merge_request_event"
    ensures PipelineKind(source) == "schedule" <==> source == "schedule"
    ensures PipelineKind(source) == "branch" <==>
              source !in ["parent_pipeline", "trigger", "pipeline", "merge_request_event", "schedule"]
  {
    var names := ["child", "trigger", "merge_request", "schedule", "branch"];
    assert forall i, j :: 0 <= i < j < |names| ==> names[i][0] != names[j][0];
    assert PipelineKind(source) in names;
  }

  /** The record is of this pipeline label set. */
  function OfPipeline(k: PipelineKey): Record -> bool {
    (r: Record) =>
      && r.project == k.project && r.pipeline.ref == k.ref && r.pipeline.source == k.source
      && PipelineKind(r.pipeline.source) == k.kind
  }

  function RunTime(r: Record): real {
    r.pipeline.duration as real
  }

  function QueueTime(r: Record): real {
    r.pipeline.queuedDuration as real
  }

  /** The record is of this label set with this status, and has a run time. */
  function RanAs(k: PipelineKey, status: string): Record -> bool {
    (r: Record) => OfPipeline(k)(r) && r.pipeline.status == status && r.pipeline.duration > 0
  }

  lemma {:induction false} PipelinesCounted(records: seq<Record>, k: PipelineKey)
    ensures Tells(Events(records), k, Filter(OfPipeline(k), records), RunTime, QueueTime)
  {
    if records != [] {
      var front, r := records[..|records| - 1], records[|records| - 1];
      assert records == front + [r];
      PipelinesCounted(front, k);
      RecordsSnoc(front, r);
      FilterSnoc(OfPipeline(k), front, r);
      assert OfPipeline(k)(r) <==> EventOf(r).key == k;
      TellsSnoc(Events(front), k, Filter(OfPipeline(k), front), RunTime, QueueTime, EventOf(r), r);
    }
  }

  lemma {:induction false} StatusCounted(records: seq<Record>, k: PipelineKey, status: string)
    ensures TellsChild(Events(records), Fine(k, status), Filter(RanAs(k, status), records), RunTime)
  {
    if records != [] {
      var front, r := records[..|records| - 1], records[|records| - 1];
      assert records == front + [r];
      StatusCounted(front, k, status);
      RecordsSnoc(front, r);
      var e := EventOf(r);
      assert OfPipeline(k)(r) <==> e.key == k;
      assert RanAs(k, status)(r) <==> e.duration > 0.0 && Fine(e.key, e.fine) == Fine(k, status);
      FilterSnoc(RanAs(k, status), front, r);
      TellsChildSnoc(Events(front), Fine(k, status), Filter(RanAs(k, status), front), RunTime, e, r);
    } else {
      assert Durations(Events(records)) == [];
    }
  }

  /**
   * In every reachable state and for every label set: the run count is the number of pipelines recorded
   * under it; duration histograms, added up over all statuses in any order, count and sum the positive
   * durations among them, queue histograms the positive queue times; the statuses are exactly those
   * recorded; and a label set that has any metric carries the kind derived from its source.
   */
  lemma PipelineMetricsAgree(c: PipelinesCollector, k: PipelineKey, order: seq<Fine<PipelineKey, string>>)
    requires c.PipelinesValid() && AllOfKey(order, c.duration, k)
    ensures Reads(c.duration, c.queuedDuration, c.runCount, k, order, Filter(OfPipeline(k), c.records), RunTime, QueueTime)
    ensures k in c.runCount || k in c.queuedDuration || order != [] ==> k.kind == PipelineKind(k.source)
    ensures forall s :: s in c.status && s.pipeline == k <==>
              exists r :: r in c.records && OfPipeline(k)(r) && s == StatusKey(k, r.pipeline.status)
  {
    var mine := Filter(OfPipeline(k), c.records);
    PipelinesCounted(c.records, k);
    MetricsRead(c.duration, c.queuedDuration, c.runCount, Events(c.records), k, order, mine, RunTime, QueueTime);
    ObservedMeansRun(c.duration, c.queuedDuration, c.runCount, Events(c.records), k, order);
    FilterMembers(OfPipeline(k), c.records);
    if k in c.runCount {
      assert k in Elements(Keys(Events(c.records)));
      assert mine != [] && OfPipeline(k)(mine[0]);
    }
  }

  /** Each single duration histogram counts and sums the durations recorded under exactly its labels. */
  lemma PipelineHistogramAgrees(c: PipelinesCollector, k: PipelineKey, status: string)
    requires c.PipelinesValid()
    ensures var (d, mine) := (Fine(k, status), Filter(RanAs(k, status), c.records));
            && (if d in c.duration then c.duration[d].count else 0) == |mine|
            && (if d in c.duration then c.duration[d].sum else 0.0) == RealSum(RunTime, mine)
  {
    SumIn(c.duration, Durations(Events(c.records)), Fine(k, status));
    StatusCounted(c.records, k, status);
  }

  // ---------- Gauges per ref

  function OfRef(k: RefKey): Record -> bool {
    (r: Record) => r.project == k.project && r.pipeline.ref == k.ref && PipelineKind(r.pipeline.source) == k.kind
  }

  function WithCoverage(k: RefKey): Record -> bool {
    (r: Record) => OfRef(k)(r) && r.pipeline.coverage.Some?
  }

  function WithCreation(k: RefKey): Record -> bool {
    (r: Record) => OfRef(k)(r) && r.pipeline.createdAt.Some?
  }

  lemma {:induction false} IdsHold(records: seq<Record>, k: RefKey)
    ensures var (ids, mine) := (Latest(Ids(records)), Filter(OfRef(k), records));
            (k in ids <==> mine != []) && (k in ids ==> ids[k] == mine[|mine| - 1].pipeline.id as real)
  {
    if records != [] {
      var front, r := records[..|records| - 1], records[|records| - 1];
      assert records == front + [r];
      IdsHold(front, k);
      GaugesSnoc(front, r);
      assert OfRef(k)(r) <==> RefKeyOf(r) == k;
      FilterSnoc(OfRef(k), front, r);
    }
  }

  lemma {:induction false} CoveragesHold(records: seq<Record>, k: RefKey)
    ensures var (coverages, mine) := (Latest(Coverages(records)), Filter(WithCoverage(k), records));
            (k in coverages <==> mine != []) && (k in coverages ==> Some(coverages[k]) == mine[|mine| - 1].pipeline.coverage)
  {
    if records != [] {
      var front, r := records[..|records| - 1], records[|records| - 1];
      assert records == front + [r];
      CoveragesHold(front, k);
      GaugesSnoc(front, r);
      assert OfRef(k)(r) <==> RefKeyOf(r) == k;
      FilterSnoc(WithCoverage(k), front, r);
    }
  }

  lemma {:induction false} CreationsHold(records: seq<Record>, k: RefKey)
    ensures var (creations, mine) := (Latest(Creations(records)), Filter(WithCreation(k), records));
            && (k in creations <==> mine != [])
            && (k in creations ==> mine[|mine| - 1].pipeline.createdAt.Some?
                                   && creations[k] == mine[|mine| - 1].pipeline.createdAt.value as real)
  {
    if records != [] {
      var front, r := records[..|records| - 1], records[|records| - 1];
      assert records == front + [r];
      CreationsHold(front, k);
      GaugesSnoc(front, r);
      assert OfRef(k)(r) <==> RefKeyOf(r) == k;
      FilterSnoc(WithCreation(k), front, r);
    }
  }

  /**
   * The gauges of a ref and kind hold what the last pipeline recorded under them had: its id, and the
   * last coverage and creation time that were known.
   */
  lemma GaugesHoldLast(c: PipelinesCollector, k: RefKey)
    requires c.PipelinesValid()
    ensures var mine := Filter(OfRef(k), c.records);
            (k in c.id <==> mine != []) && (k in c.id ==> c.id[k] == mine[|mine| - 1].pipeline.id as real)
    ensures var mine := Filter(WithCoverage(k), c.records);
            (k in c.coverage <==> mine != []) && (k in c.coverage ==> Some(c.coverage[k]) == mine[|mine| - 1].pipeline.coverage)
    ensures var mine := Filter(WithCreation(k), c.records);
            && (k in c.createdAt <==> mine != [])
            && (k in c.createdAt ==> mine[|mine| - 1].pipeline.createdAt.Some?
                                     && c.createdAt[k] == mine[|mine| - 1].pipeline.createdAt.value as real)
  {
    IdsHold(c.records, k);
    CoveragesHold(c.records, k);
    CreationsHold(c.records, k);
  }

  // ---------- Child pipelines

  /** The visit leads to this child pipeline label set. */
  function OfChild(k: ChildKey): Visit -> bool {
    (v: Visit) =>
      && v.bridge.downstream.Some? && v.project == k.parentProject && v.parentRef == k.parentRef && v.bridge.name == k.bridge
      && var d := v.bridge.downstream.value;
         d.ref == k.ref && k.project == if d.projectId == 0 then "" else Decimal.Print(d.projectId)
  }

  /** The child pipeline's times, zero when they could not be fetched. */
  function ChildRunTime(v: Visit): real {
    if v.bridge.downstream.Some? && v.bridge.downstream.value.projectId != 0 && v.bridge.downstream.value.times.Some? then
      v.bridge.downstream.value.times.value.0 as real
    else 0.0
  }

  function ChildQueueTime(v: Visit): real {
    if v.bridge.downstream.Some? && v.bridge.downstream.value.projectId != 0 && v.bridge.downstream.value.times.Some? then
      v.bridge.downstream.value.times.value.1 as real
    else 0.0
  }

  lemma {:induction false} ChildrenCounted(visits: seq<Visit>, k: ChildKey)
    ensures Tells(AllChildEvents(visits), k, Filter(OfChild(k), visits), ChildRunTime, ChildQueueTime)
  {
    if visits != [] {
      var front, v := visits[..|visits| - 1], visits[|visits| - 1];
      assert visits == front + [v];
      ChildrenCounted(front, k);
      VisitsSnoc(front, v);
      FilterSnoc(OfChild(k), front, v);
      if v.bridge.downstream.Some? {
        var e := ChildEvents(v)[0];
        assert OfChild(k)(v) <==> e.key == k;
        TellsSnoc(AllChildEvents(front), k, Filter(OfChild(k), front), ChildRunTime, ChildQueueTime, e, v);
      } else {
        assert AllChildEvents(front) + [] == AllChildEvents(front);
      }
    }
  }

  /**
   * The same for child pipelines, whose histograms carry no further labels; and a child status gauge
   * is set exactly for the statuses of the visited downstream pipelines.
   */
  lemma ChildMetricsAgree(c: PipelinesCollector, k: ChildKey)
    requires c.ChildrenValid()
    ensures var only := if Fine(k, NoLabels) in c.childDuration then [Fine(k, NoLabels)] else [];
            Reads(c.childDuration, c.childQueuedDuration, c.childRunCount, k, only,
                  Filter(OfChild(k), c.visits), ChildRunTime, ChildQueueTime)
    ensures forall s :: s in c.childStatus && s.child == k <==>
              exists v :: v in c.visits && OfChild(k)(v) && s == ChildStatus(k, v.bridge.downstream.value.status)
  {
    var only := if Fine(k, NoLabels) in c.childDuration then [Fine(k, NoLabels)] else [];
    forall d | d in c.childDuration && d.key == k
      ensures d == Fine(k, NoLabels)
    {
      assert d.fine.NoLabels?;
    }
    ChildrenCounted(c.visits, k);
    MetricsRead(c.childDuration, c.childQueuedDuration, c.childRunCount, AllChildEvents(c.visits), k, only,
                Filter(OfChild(k), c.visits), ChildRunTime, ChildQueueTime);
    ChildStatusesOf(c.visits, k);
  }

  lemma ChildStatusesOf(visits: seq<Visit>, k: ChildKey)
    ensures forall s :: s in AllChildStatuses(visits) && s.child == k <==>
              exists v :: v in visits && OfChild(k)(v) && s == ChildStatus(k, v.bridge.downstream.value.status)
  {
    forall v | v in visits && v.bridge.downstream.Some?
      ensures OfChild(k)(v) <==> ChildKeyOf(v) == k
    {
    }
  }
}
