/** internal/collector/jobs.go: counters, histograms and gauges kept per job. */
module Jobs {
  import opened Prelude
  import opened Metrics

  datatype Job = Job(ref: string, stage: string, name: string, status: string, failureReason: string,
                     duration: real, queuedDuration: real, runnerId: int, runnerShared: bool, artifactSizes: seq<int>)

  datatype JobKey = JobKey(project: string, ref: string, stage: string, name: string)
  datatype RunnerStatus = RunnerStatus(runnerType: string, status: string)
  datatype StatusKey = StatusKey(job: JobKey, status: string, failureReason: string)

  /** One call of recordJob. */
  datatype Record = Record(project: string, job: Job)

  function KeyOf(r: Record): JobKey {
    JobKey(r.project, r.job.ref, r.job.stage, r.job.name)
  }

  function RunnerType(j: Job, includeDetails: bool): string {
    if !includeDetails || j.runnerId == 0 then "unknown"
    else if j.runnerShared then "instance"
    else "project"
  }

  function SizeTotal(sizes: seq<int>): int {
    if sizes == [] then 0 else SizeTotal(sizes[..|sizes| - 1]) + sizes[|sizes| - 1]
  }

  // ---------- What a history of records should leave behind

  /** The counter labels, runner type and status, duration and queue time of every record. */
  ghost function Events(records: seq<Record>, details: bool): (es: seq<Event<JobKey, RunnerStatus>>)
    ensures |es| == |records|
  {
    Map((r: Record) => EventOf(r, details), records)
  }

  function EventOf(r: Record, details: bool): Event<JobKey, RunnerStatus> {
    Event(KeyOf(r), RunnerStatus(RunnerType(r.job, details), r.job.status), r.job.duration, r.job.queuedDuration)
  }

  /** The positive artifact totals, as they were set. */
  ghost function ArtifactSizes(records: seq<Record>): seq<Sample<JobKey>> {
    if records == [] then []
    else
      var r := records[|records| - 1];
      var front := ArtifactSizes(records[..|records| - 1]);
      if SizeTotal(r.job.artifactSizes) > 0 then front + [Sample(KeyOf(r), SizeTotal(r.job.artifactSizes) as real)] else front
  }

  ghost function Statuses(records: seq<Record>): set<StatusKey> {
    set r | r in records :: StatusKey(KeyOf(r), r.job.status, r.job.failureReason)
  }

  // ---------- The collector

  class JobsCollector {
    const includeDetails: bool
    var duration: map<Fine<JobKey, RunnerStatus>, Summary>
    var queuedDuration: map<JobKey, Summary>
    var status: set<StatusKey>          // the gauges that have been set to 1
    var runCount: map<JobKey, nat>
    var artifactSize: map<JobKey, real>
    ghost var records: seq<Record>

    ghost predicate Valid()
      reads this
    {
      && Recorded(duration, queuedDuration, runCount, Events(records, includeDetails))
      && status == Statuses(records)
      && artifactSize == Latest(ArtifactSizes(records))
    }

    constructor (includeDetails: bool)
      ensures Valid() && records == [] && this.includeDetails == includeDetails
    {
      this.includeDetails := includeDetails;
      duration, queuedDuration, status, runCount, artifactSize := map[], map[], {}, map[], map[];
      records := [];
    }

    method RecordJob(project: string, j: Job)
      requires Valid()
      modifies this
      ensures Valid() && records == old(records) + [Record(project, j)]
    {
      ghost var r := Record(project, j);
      var key := JobKey(project, j.ref, j.stage, j.name);
      var e := Event(key, RunnerStatus(RunnerType(j, includeDetails), j.status), j.duration, j.queuedDuration);
      RecordsSnoc(records, r, includeDetails);
      duration, queuedDuration, runCount :=
        RecordRun(duration, queuedDuration, runCount, e, Events(records, includeDetails));
      status := status + {StatusKey(key, j.status, j.failureReason)};
      SetArtifactSize(key, j, records, r);
      records := records + [r];
    }

    method SetArtifactSize(key: JobKey, j: Job, ghost before: seq<Record>, ghost r: Record)
      requires artifactSize == Latest(ArtifactSizes(before)) && r.job == j && KeyOf(r) == key
      modifies this`artifactSize
      ensures artifactSize == Latest(ArtifactSizes(before + [r]))
    {
      assert (before + [r])[..|before|] == before;
      var total := SumSizes(j.artifactSizes);
      if total > 0 {
        LatestSnoc(ArtifactSizes(before), key, total as real);
        artifactSize := artifactSize[key := total as real];
      }
    }
  }

  method SumSizes(sizes: seq<int>) returns (total: int)
    ensures total == SizeTotal(sizes)
  {
    total := 0;
    for i := 0 to |sizes|
      invariant total == SizeTotal(sizes[..i])
    {
      assert sizes[..i + 1][..i] == sizes[..i];
      total := total + sizes[i];
    }
    assert sizes[..|sizes|] == sizes;
  }

  lemma RecordsSnoc(records: seq<Record>, r: Record, details: bool)
    ensures Events(records + [r], details) == Events(records, details) + [EventOf(r, details)]
    ensures Statuses(records + [r]) == Statuses(records) + {StatusKey(KeyOf(r), r.job.status, r.job.failureReason)}
  {
  }

  lemma {:induction false} SizesAdd(a: seq<int>, b: seq<int>)
    ensures SizeTotal(a + b) == SizeTotal(a) + SizeTotal(b)
  {
    if b == [] {
      assert a + b == a;
    } else {
      SizesAdd(a, b[..|b| - 1]);
      assert (a + b)[..|a + b| - 1] == a + b[..|b| - 1];
    }
  }

  /** The artifact total is the sum of the sizes: a single size is itself, and lists add up. */
  lemma ArtifactTotals(a: seq<int>, b: seq<int>, size: int)
    ensures SizeTotal([]) == 0 && SizeTotal([size]) == size
    ensures SizeTotal(a + b) == SizeTotal(a) + SizeTotal(b)
  {
    assert [size][..0] == [];
    SizesAdd(a, b);
  }

  /** Without details, or without a runner, the type is unknown; otherwise shared runners are the instance's. */
  lemma RunnerTypes(j: Job, details: bool)
    ensures RunnerType(j, details) == "unknown" <==> !details || j.runnerId == 0
    ensures RunnerType(j, details) == "instance" <==> details && j.runnerId != 0 && j.runnerShared
    ensures RunnerType(j, details) == "project" <==> details && j.runnerId != 0 && !j.runnerShared
  {
    assert "unknown"[0] != "instance"[0] && "unknown"[0] != "project"[0] && "instance"[0] != "project"[0];
  }

  // ---------- Agreement of the metrics with the recorded jobs

  /** The record is of this job. */
  function OfJob(k: JobKey): Record -> bool {
    (r: Record) => r.project == k.project && r.job.ref == k.ref && r.job.stage == k.stage && r.job.name == k.name
  }

  function RunTime(r: Record): real {
    r.job.duration
  }

  function QueueTime(r: Record): real {
    r.job.queuedDuration
  }

  /** The record is of this job with this runner type and status, and has a run time. */
  function RanAs(k: JobKey, details: bool, runnerType: string, status: string): Record -> bool {
    (r: Record) => OfJob(k)(r) && RunnerType(r.job, details) == runnerType && r.job.status == status && r.job.duration > 0.0
  }

  lemma {:induction false} JobsCounted(records: seq<Record>, details: bool, k: JobKey)
    ensures Tells(Events(records, details), k, Filter(OfJob(k), records), RunTime, QueueTime)
  {
    if records != [] {
      var front, r := records[..|records| - 1], records[|records| - 1];
      assert records == front + [r];
      JobsCounted(front, details, k);
      RecordsSnoc(front, r, details);
      FilterSnoc(OfJob(k), front, r);
      assert OfJob(k)(r) <==> EventOf(r, details).key == k;
      TellsSnoc(Events(front, details), k, Filter(OfJob(k), front), RunTime, QueueTime, EventOf(r, details), r);
    }
  }

  lemma MatchesChild(r: Record, details: bool, k: JobKey, runnerType: string, status: string)
    ensures var e := EventOf(r, details);
            RanAs(k, details, runnerType, status)(r) <==>
              e.duration > 0.0 && Fine(e.key, e.fine) == Fine(k, RunnerStatus(runnerType, status))
    ensures EventOf(r, details).duration == r.job.duration
  {
    var e := EventOf(r, details);
    assert OfJob(k)(r) <==> e.key == k;
    assert e.fine == RunnerStatus(runnerType, status) <==>
           RunnerType(r.job, details) == runnerType && r.job.status == status;
  }

  lemma {:induction false} ChildCounted(records: seq<Record>, details: bool, k: JobKey, runnerType: string, status: string)
    ensures TellsChild(Events(records, details), Fine(k, RunnerStatus(runnerType, status)),
                       Filter(RanAs(k, details, runnerType, status), records), RunTime)
  {
    if records != [] {
      var front, r := records[..|records| - 1], records[|records| - 1];
      var p := RanAs(k, details, runnerType, status);
      assert records == front + [r];
      ChildCounted(front, details, k, runnerType, status);
      RecordsSnoc(front, r, details);
      MatchesChild(r, details, k, runnerType, status);
      FilterSnoc(p, front, r);
      TellsChildSnoc(Events(front, details), Fine(k, RunnerStatus(runnerType, status)), Filter(p, front), RunTime, EventOf(r, details), r);
    } else {
      assert Durations(Events(records, details)) == [];
    }
  }

  /**
   * In every reachable state and for every job: the run count is the number of its records; its
   * duration histograms, added up over runner types and statuses in any order, count and sum the
   * positive run times among them, its queue histogram the positive queue times, neither more often
   * than the run count; and its statuses are exactly those recorded.
   */
  lemma JobMetricsAgree(c: JobsCollector, k: JobKey, order: seq<Fine<JobKey, RunnerStatus>>)
    requires c.Valid() && AllOfKey(order, c.duration, k)
    ensures Reads(c.duration, c.queuedDuration, c.runCount, k, order, Filter(OfJob(k), c.records), RunTime, QueueTime)
    ensures forall s :: s in c.status && s.job == k <==>
              exists r :: r in c.records && OfJob(k)(r) && s == StatusKey(k, r.job.status, r.job.failureReason)
  {
    JobsCounted(c.records, c.includeDetails, k);
    MetricsRead(c.duration, c.queuedDuration, c.runCount, Events(c.records, c.includeDetails), k, order,
                Filter(OfJob(k), c.records), RunTime, QueueTime);
  }

  /** Each single duration histogram counts and sums the run times recorded under exactly its labels. */
  lemma JobHistogramAgrees(c: JobsCollector, k: JobKey, runnerType: string, status: string)
    requires c.Valid()
    ensures var (d, mine) := (Fine(k, RunnerStatus(runnerType, status)),
                              Filter(RanAs(k, c.includeDetails, runnerType, status), c.records));
            && (if d in c.duration then c.duration[d].count else 0) == |mine|
            && (if d in c.duration then c.duration[d].sum else 0.0) == RealSum(RunTime, mine)
  {
    SumIn(c.duration, Durations(Events(c.records, c.includeDetails)), Fine(k, RunnerStatus(runnerType, status)));
    ChildCounted(c.records, c.includeDetails, k, runnerType, status);
  }

  /** The record is of this job and its artifact total is positive. */
  function SetsSize(k: JobKey): Record -> bool {
    (r: Record) => OfJob(k)(r) && SizeTotal(r.job.artifactSizes) > 0
  }

  lemma {:induction false} SizesHold(records: seq<Record>, k: JobKey)
    ensures var (sizes, mine) := (Latest(ArtifactSizes(records)), Filter(SetsSize(k), records));
            && (k in sizes <==> mine != [])
            && (k in sizes ==> sizes[k] == SizeTotal(mine[|mine| - 1].job.artifactSizes) as real)
  {
    if records != [] {
      var front, r := records[..|records| - 1], records[|records| - 1];
      assert records == front + [r];
      SizesHold(front, k);
      FilterSnoc(SetsSize(k), front, r);
      if SizeTotal(r.job.artifactSizes) > 0 {
        LatestSnoc(ArtifactSizes(front), KeyOf(r), SizeTotal(r.job.artifactSizes) as real);
        assert KeyOf(r) == k <==> OfJob(k)(r);
      }
    }
  }

  /** The artifact gauge of a job exactly holds the total of the last record with a positive one. */
  lemma ArtifactSizeIsLast(c: JobsCollector, k: JobKey)
    requires c.Valid()
    ensures var mine := Filter(SetsSize(k), c.records);
            && (k in c.artifactSize <==> mine != [])
            && (k in c.artifactSize ==> c.artifactSize[k] == SizeTotal(mine[|mine| - 1].job.artifactSizes) as real)
  {
    SizesHold(c.records, k);
  }
}
