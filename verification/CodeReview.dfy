/** internal/collector/code_review.go: reviewer tallies over two listings per project, either of which may fail. */
module CodeReview {
  import opened Prelude
  import opened Tally
  import opened Gauges
  import opened Histograms
  import opened HistogramTheorems
  import opened MergeRequests

  datatype Review = Review(reviewers: seq<string>, notes: int, createdAt: Option<Time>, mergedAt: Option<Time>,
                           mergedBy: Option<string>, now: Time)

  /** One project: cancelled, open listing failed, or listed with the merged listing possibly missing. */
  datatype Reviewed = Stopped | OpenFailed | Open(current: seq<Review>, merged: Option<seq<Review>>)

  datatype Tallies = Tallies(turnaround: seq<LabeledValue>, approvals: seq<Gauge>, pending: seq<Gauge>,
                             requested: seq<Gauge>, scrapeErrors: nat)

  const DEFAULT_REVIEW_BUCKETS: seq<real> :=
    [300.0, 600.0, 1800.0, 3600.0, 7200.0, 14400.0, 28800.0, 43200.0, 86400.0, 172800.0, 604800.0]

  const NO_TALLIES := Tallies([], [], [], [], 0)

  // ---------- What one cycle should count

  /** The estimate for a review that ran until `end`, filed under the first reviewer. */
  function Turnaround(project: string, r: Review, end: Option<Time>): seq<LabeledValue> {
    if r.notes > 0 && r.createdAt.Some? && end.Some? && r.reviewers != [] then
      [LabeledValue([project, r.reviewers[0]], Seconds(end.value - r.createdAt.value) / (r.notes + 1) as real)]
    else []
  }

  ghost function OpenTurnarounds(project: string, rs: seq<Review>): seq<LabeledValue> {
    if rs == [] then []
    else
      var last := rs[|rs| - 1];
      OpenTurnarounds(project, rs[..|rs| - 1]) + Turnaround(project, last, Some(last.now))
  }

  ghost function MergedTurnarounds(project: string, rs: seq<Review>): seq<LabeledValue> {
    if rs == [] then []
    else
      var last := rs[|rs| - 1];
      MergedTurnarounds(project, rs[..|rs| - 1]) + Turnaround(project, last, last.mergedAt)
  }

  /** Every reviewer assignment, in order. */
  ghost function Assignments(rs: seq<Review>): seq<string> {
    if rs == [] then [] else Assignments(rs[..|rs| - 1]) + rs[|rs| - 1].reviewers
  }

  /** Who merged, in order, where that is known. */
  ghost function Mergers(rs: seq<Review>): seq<string> {
    if rs == [] then []
    else
      var last := rs[|rs| - 1];
      if last.mergedBy.Some? then Mergers(rs[..|rs| - 1]) + [last.mergedBy.value] else Mergers(rs[..|rs| - 1])
  }

  /** How many have a reviewer assigned. */
  ghost function Waiting(rs: seq<Review>): nat {
    if rs == [] then 0 else Waiting(rs[..|rs| - 1]) + if rs[|rs| - 1].reviewers != [] then 1 else 0
  }

  ghost function MergedList(r: Reviewed): seq<Review>
    requires r.Open?
  {
    r.merged.GetOr([])
  }

  /** All assignments over the listings of a project that were fetched. */
  ghost function Requests(r: Reviewed): seq<string>
    requires r.Open?
  {
    Assignments(r.current) + Assignments(MergedList(r))
  }

  ghost function Turnarounds(projects: seq<string>, replies: seq<Reviewed>, n: nat): seq<LabeledValue>
    requires n <= |projects| == |replies|
  {
    if n == 0 then []
    else if replies[n - 1].Open? then
      Turnarounds(projects, replies, n - 1)
      + OpenTurnarounds(projects[n - 1], replies[n - 1].current)
      + MergedTurnarounds(projects[n - 1], MergedList(replies[n - 1]))
    else Turnarounds(projects, replies, n - 1)
  }

  ghost function RequestBatches(projects: seq<string>, replies: seq<Reviewed>, n: nat): seq<Batch>
    requires n <= |projects| == |replies|
  {
    if n == 0 then []
    else if replies[n - 1].Open? then
      RequestBatches(projects, replies, n - 1) + [Batch(projects[n - 1], Singles(Requests(replies[n - 1])))]
    else RequestBatches(projects, replies, n - 1)
  }

  ghost function ApprovalBatches(projects: seq<string>, replies: seq<Reviewed>, n: nat): seq<Batch>
    requires n <= |projects| == |replies|
  {
    if n == 0 then []
    else if replies[n - 1].Open? then
      ApprovalBatches(projects, replies, n - 1) + [Batch(projects[n - 1], Singles(Mergers(MergedList(replies[n - 1]))))]
    else ApprovalBatches(projects, replies, n - 1)
  }

  ghost function Pending(projects: seq<string>, replies: seq<Reviewed>, n: nat): seq<Gauge>
    requires n <= |projects| == |replies|
  {
    if n == 0 then []
    else if replies[n - 1].Open? then
      Pending(projects, replies, n - 1) + [Gauge([projects[n - 1]], Waiting(replies[n - 1].current))]
    else Pending(projects, replies, n - 1)
  }

  /** One error for every listing that failed. */
  ghost function Errors(replies: seq<Reviewed>, n: nat): nat
    requires n <= |replies|
  {
    if n == 0 then 0
    else
      Errors(replies, n - 1)
      + if replies[n - 1].OpenFailed? || (replies[n - 1].Open? && replies[n - 1].merged.None?) then 1 else 0
  }

  ghost predicate Tallied(projects: seq<string>, replies: seq<Reviewed>, n: nat, t: Tallies)
    requires n <= |projects| == |replies|
  {
    && t.turnaround == Turnarounds(projects, replies, n)
    && EmitsAll(t.approvals, ApprovalBatches(projects, replies, n))
    && EmitsAll(t.requested, RequestBatches(projects, replies, n))
    && t.pending == Pending(projects, replies, n)
    && t.scrapeErrors == Errors(replies, n)
  }

  // ---------- The loops

  lemma ReviewsSnoc(project: string, rs: seq<Review>, i: nat)
    requires i < |rs|
    ensures Assignments(rs[..i + 1]) == Assignments(rs[..i]) + rs[i].reviewers
    ensures Mergers(rs[..i + 1]) ==
            if rs[i].mergedBy.Some? then Mergers(rs[..i]) + [rs[i].mergedBy.value] else Mergers(rs[..i])
    ensures Waiting(rs[..i + 1]) == Waiting(rs[..i]) + if rs[i].reviewers != [] then 1 else 0
    ensures OpenTurnarounds(project, rs[..i + 1]) == OpenTurnarounds(project, rs[..i]) + Turnaround(project, rs[i], Some(rs[i].now))
    ensures MergedTurnarounds(project, rs[..i + 1]) == MergedTurnarounds(project, rs[..i]) + Turnaround(project, rs[i], rs[i].mergedAt)
  {
    assert rs[..i + 1][..i] == rs[..i];
  }

  method RecordOneOpened(project: string, r: Review, requested: map<string, nat>, turnaround: seq<LabeledValue>, ghost keys: seq<string>)
    returns (waiting: nat, requested': map<string, nat>, turnaround': seq<LabeledValue>)
    requires Counts(requested, keys)
    ensures waiting == if r.reviewers != [] then 1 else 0
    ensures Counts(requested', keys + r.reviewers)
    ensures turnaround' == turnaround + Turnaround(project, r, Some(r.now))
  {
    waiting, turnaround' := 0, turnaround;
    if |r.reviewers| > 0 {
      waiting := 1;
    }
    requested' := CountAll(requested, r.reviewers, keys);
    if r.notes > 0 && r.createdAt.Some? {
      var approx := Seconds(r.now - r.createdAt.value) / (r.notes + 1) as real;
      if |r.reviewers| > 0 {
        turnaround' := turnaround' + [LabeledValue([project, r.reviewers[0]], approx)];
      }
    }
  }

  method RecordOpened(project: string, rs: seq<Review>, turnaround: seq<LabeledValue>)
    returns (pending: nat, requested: map<string, nat>, turnaround': seq<LabeledValue>)
    ensures pending == Waiting(rs)
    ensures Counts(requested, Assignments(rs))
    ensures turnaround' == turnaround + OpenTurnarounds(project, rs)
  {
    pending, requested, turnaround' := 0, map[], turnaround;
    for i := 0 to |rs|
      invariant pending == Waiting(rs[..i])
      invariant Counts(requested, Assignments(rs[..i]))
      invariant turnaround' == turnaround + OpenTurnarounds(project, rs[..i])
    {
      ReviewsSnoc(project, rs, i);
      ConcatAssociates(turnaround, OpenTurnarounds(project, rs[..i]), Turnaround(project, rs[i], Some(rs[i].now)));
      var waiting;
      waiting, requested, turnaround' := RecordOneOpened(project, rs[i], requested, turnaround', Assignments(rs[..i]));
      pending := pending + waiting;
    }
    assert rs[..|rs|] == rs;
  }

  method RecordOneMerged(project: string, r: Review, approvals: map<string, nat>, requested: map<string, nat>,
                         turnaround: seq<LabeledValue>, ghost mergers: seq<string>, ghost keys: seq<string>)
    returns (approvals': map<string, nat>, requested': map<string, nat>, turnaround': seq<LabeledValue>)
    requires Counts(approvals, mergers) && Counts(requested, keys)
    ensures Counts(approvals', if r.mergedBy.Some? then mergers + [r.mergedBy.value] else mergers)
    ensures Counts(requested', keys + r.reviewers)
    ensures turnaround' == turnaround + Turnaround(project, r, r.mergedAt)
  {
    approvals', turnaround' := approvals, turnaround;
    if r.mergedBy.Some? {
      BumpCounts(approvals, mergers, r.mergedBy.value);
      approvals' := Bump(approvals, r.mergedBy.value);
    }
    if r.mergedAt.Some? && r.createdAt.Some? && r.notes > 0 {
      var approx := Seconds(r.mergedAt.value - r.createdAt.value) / (r.notes + 1) as real;
      if |r.reviewers| > 0 {
        turnaround' := turnaround' + [LabeledValue([project, r.reviewers[0]], approx)];
      }
    }
    requested' := CountAll(requested, r.reviewers, keys);
  }

  method RecordMerged(project: string, rs: seq<Review>, turnaround: seq<LabeledValue>,
                      requested: map<string, nat>, ghost keys: seq<string>)
    returns (approvals: map<string, nat>, requested': map<string, nat>, turnaround': seq<LabeledValue>)
    requires Counts(requested, keys)
    ensures Counts(approvals, Mergers(rs))
    ensures Counts(requested', keys + Assignments(rs))
    ensures turnaround' == turnaround + MergedTurnarounds(project, rs)
  {
    approvals, requested', turnaround' := map[], requested, turnaround;
    ghost var done := keys;
    for i := 0 to |rs|
      invariant done == keys + Assignments(rs[..i])
      invariant Counts(approvals, Mergers(rs[..i])) && Counts(requested', done)
      invariant turnaround' == turnaround + MergedTurnarounds(project, rs[..i])
    {
      ReviewsSnoc(project, rs, i);
      ConcatAssociates(keys, Assignments(rs[..i]), rs[i].reviewers);
      ConcatAssociates(turnaround, MergedTurnarounds(project, rs[..i]), Turnaround(project, rs[i], rs[i].mergedAt));
      approvals, requested', turnaround' :=
        RecordOneMerged(project, rs[i], approvals, requested', turnaround', Mergers(rs[..i]), done);
      done := done + rs[i].reviewers;
    }
    assert rs[..|rs|] == rs;
  }

  /** One project whose open listing succeeded. */
  method TallyProject(projects: seq<string>, replies: seq<Reviewed>, i: nat, t: Tallies) returns (t': Tallies)
    requires i < |projects| == |replies| && Tallied(projects, replies, i, t) && replies[i].Open?
    ensures Tallied(projects, replies, i + 1, t')
  {
    var project, reply := projects[i], replies[i];
    var pending, reviewerRequested, turnaround := RecordOpened(project, reply.current, t.turnaround);
    var reviewerApprovals: map<string, nat> := map[];
    var errors := t.scrapeErrors;
    if reply.merged.None? {
      errors := errors + 1;
      assert Requests(reply) == Assignments(reply.current);
    } else {
      reviewerApprovals, reviewerRequested, turnaround :=
        RecordMerged(project, reply.merged.value, turnaround, reviewerRequested, Assignments(reply.current));
    }
    var approvals := AppendCounts(t.approvals, project, reviewerApprovals, Mergers(MergedList(reply)), ApprovalBatches(projects, replies, i));
    var requested := AppendCounts(t.requested, project, reviewerRequested, Requests(reply), RequestBatches(projects, replies, i));
    t' := Tallies(turnaround, approvals, t.pending + [Gauge([project], pending)], requested, errors);
  }

  class CodeReviewCollector {
    var projects: seq<string>
    var observations: Tallies

    constructor (projects: seq<string>)
      ensures this.projects == projects && observations == NO_TALLIES
    {
      this.projects := projects;
      observations := NO_TALLIES;
    }

    /** available says that the instance's tier offers code review analytics. */
    method Run(available: bool, replies: seq<Reviewed>) returns (completed: bool)
      requires |replies| == |projects|
      modifies this`observations
      ensures completed <==> !available || forall i :: 0 <= i < |replies| ==> !replies[i].Stopped?
      ensures !available ==> observations == NO_TALLIES
      ensures available && completed ==> Tallied(projects, replies, |projects|, observations)
      ensures !completed ==> observations == old(observations)
    {
      if !available {
        observations := NO_TALLIES;
        return true;
      }
      var t := NO_TALLIES;
      for i := 0 to |projects|
        invariant forall j :: 0 <= j < i ==> !replies[j].Stopped?
        invariant Tallied(projects, replies, i, t)
        invariant observations == old(observations)
      {
        if replies[i].Stopped? {
          return false;
        }
        if replies[i].OpenFailed? {
          t := t.(scrapeErrors := t.scrapeErrors + 1);
        } else {
          t := TallyProject(projects, replies, i, t);
        }
      }
      observations := t;
      return true;
    }

    /** One scrape: the estimates as histograms, every gauge as it is. */
    method Collect() returns (x: ReviewExposition)
      ensures Scrapes(x, observations)
    {
      var obs := observations;
      var turnaround := EmitHistograms(obs.turnaround, DEFAULT_REVIEW_BUCKETS, 2);
      x := ReviewExposition(turnaround, obs.approvals, obs.pending, obs.requested, obs.scrapeErrors);
    }
  }

  datatype ReviewExposition = ReviewExposition(turnaround: seq<Histogram>, approvals: seq<Gauge>, pending: seq<Gauge>,
                                               requested: seq<Gauge>, scrapeErrors: nat)

  /** x is a scrape of t. */
  ghost predicate Scrapes(x: ReviewExposition, t: Tallies) {
    && Sends(x.turnaround, t.turnaround, DEFAULT_REVIEW_BUCKETS, 2)
    && x.approvals == t.approvals && x.pending == t.pending && x.requested == t.requested
    && x.scrapeErrors == t.scrapeErrors
  }

  // ---------- What the tallies conserve

  /** Assignments over the fetched listings of one project. */
  ghost function RequestsFor(projects: seq<string>, replies: seq<Reviewed>, n: nat, project: string): nat
    requires n <= |projects| == |replies|
  {
    if n == 0 then 0
    else
      RequestsFor(projects, replies, n - 1, project)
      + if replies[n - 1].Open? && projects[n - 1] == project then |Requests(replies[n - 1])| else 0
  }

  /** Merged merge requests of one project with a known merger. */
  ghost function MergersFor(projects: seq<string>, replies: seq<Reviewed>, n: nat, project: string): nat
    requires n <= |projects| == |replies|
  {
    if n == 0 then 0
    else
      MergersFor(projects, replies, n - 1, project)
      + if replies[n - 1].Open? && projects[n - 1] == project then |Mergers(MergedList(replies[n - 1]))| else 0
  }

  lemma ProjectTuplesSnoc(batches: seq<Batch>, b: Batch, project: string)
    ensures ProjectTuples(batches + [b], project) ==
            ProjectTuples(batches, project) + if b.project == project then |b.tuples| else 0
  {
    assert (batches + [b])[..|batches|] == batches;
  }

  lemma {:induction false} BatchSizes(projects: seq<string>, replies: seq<Reviewed>, n: nat, project: string)
    requires n <= |projects| == |replies|
    ensures ProjectTuples(RequestBatches(projects, replies, n), project) == RequestsFor(projects, replies, n, project)
    ensures ProjectTuples(ApprovalBatches(projects, replies, n), project) == MergersFor(projects, replies, n, project)
  {
    if n > 0 {
      BatchSizes(projects, replies, n - 1, project);
      if replies[n - 1].Open? {
        ProjectTuplesSnoc(RequestBatches(projects, replies, n - 1), Batch(projects[n - 1], Singles(Requests(replies[n - 1]))), project);
        ProjectTuplesSnoc(ApprovalBatches(projects, replies, n - 1),
                          Batch(projects[n - 1], Singles(Mergers(MergedList(replies[n - 1])))), project);
      }
    }
  }

  lemma {:induction false} WaitingIsAssigned(rs: seq<Review>)
    ensures Waiting(rs) <= |Assignments(rs)|
  {
    if rs != [] {
      WaitingIsAssigned(rs[..|rs| - 1]);
    }
  }

  lemma PendingSumSnoc(front: seq<Gauge>, owner: string, value: nat, project: string)
    ensures ProjectSum(front + [Gauge([owner], value)], project) ==
            ProjectSum(front, project) + if owner == project then value else 0
  {
    var g := Gauge([owner], value);
    assert (front + [g])[..|front|] == front;
    assert [project] <= g.labels <==> project == g.labels[0];
  }

  lemma {:induction false} PendingWithinRequests(projects: seq<string>, replies: seq<Reviewed>, n: nat, project: string)
    requires n <= |projects| == |replies|
    ensures ProjectSum(Pending(projects, replies, n), project) <= RequestsFor(projects, replies, n, project)
  {
    if n > 0 {
      PendingWithinRequests(projects, replies, n - 1, project);
      if replies[n - 1].Open? {
        var front, g := Pending(projects, replies, n - 1), Gauge([projects[n - 1]], Waiting(replies[n - 1].current));
        PendingSumSnoc(front, projects[n - 1], g.value, project);
        WaitingIsAssigned(replies[n - 1].current);
      }
    }
  }

  /**
   * Per project, requested counts sum to the reviewer assignments over the listings that were
   * fetched, approvals to the merged ones with a merger, and pending reviews never exceed the requests.
   */
  lemma ReviewerTalliesConserve(projects: seq<string>, replies: seq<Reviewed>, t: Tallies, project: string)
    requires |projects| == |replies| && Tallied(projects, replies, |projects|, t)
    ensures ProjectSum(t.requested, project) == RequestsFor(projects, replies, |projects|, project)
    ensures ProjectSum(t.approvals, project) == MergersFor(projects, replies, |projects|, project)
    ensures ProjectSum(t.pending, project) <= ProjectSum(t.requested, project)
  {
    var n := |projects|;
    GaugesConserve(t.requested, RequestBatches(projects, replies, n), project);
    GaugesConserve(t.approvals, ApprovalBatches(projects, replies, n), project);
    BatchSizes(projects, replies, n, project);
    PendingWithinRequests(projects, replies, n, project);
  }

  lemma {:induction false} PendingGauges(projects: seq<string>, replies: seq<Reviewed>, n: nat, g: Gauge)
    requires n <= |projects| == |replies|
    ensures g in Pending(projects, replies, n) <==>
              exists i :: 0 <= i < n && replies[i].Open? && g == Gauge([projects[i]], Waiting(replies[i].current))
  {
    if n > 0 {
      PendingGauges(projects, replies, n - 1, g);
    }
  }

  lemma {:induction false} ErrorCount(projects: seq<string>, replies: seq<Reviewed>, n: nat)
    requires n <= |projects| == |replies|
    requires forall i :: 0 <= i < n ==> !replies[i].Stopped?
    ensures |Pending(projects, replies, n)| <= n <= |Pending(projects, replies, n)| + Errors(replies, n)
    ensures Errors(replies, n) <= n
  {
    if n > 0 {
      ErrorCount(projects, replies, n - 1);
    }
  }

  /**
   * Whatever fails: a project whose open listing was fetched has its pending gauge, one whose open
   * listing failed has none of its own but an error; and there are no other pending gauges.
   */
  lemma PendingOrError(projects: seq<string>, replies: seq<Reviewed>, t: Tallies)
    requires |projects| == |replies| && Tallied(projects, replies, |projects|, t)
    requires forall i :: 0 <= i < |replies| ==> !replies[i].Stopped?
    ensures forall i :: 0 <= i < |projects| ==>
              replies[i].OpenFailed? || Gauge([projects[i]], Count(WasRequested, replies[i].current)) in t.pending
    ensures forall g :: g in t.pending ==>
              exists i :: 0 <= i < |projects| && replies[i].Open? && g == Gauge([projects[i]], Count(WasRequested, replies[i].current))
    ensures |t.pending| <= |projects| <= |t.pending| + t.scrapeErrors && t.scrapeErrors <= |projects|
  {
    ErrorCount(projects, replies, |projects|);
    forall i | 0 <= i < |projects| && replies[i].Open?
      ensures Gauge([projects[i]], Count(WasRequested, replies[i].current)) in t.pending
    {
      WaitingCount(replies[i].current);
      PendingGauges(projects, replies, |projects|, Gauge([projects[i]], Waiting(replies[i].current)));
    }
    forall g | g in t.pending
      ensures exists i :: 0 <= i < |projects| && replies[i].Open? && g == Gauge([projects[i]], Count(WasRequested, replies[i].current))
    {
      PendingGauges(projects, replies, |projects|, g);
      var i :| 0 <= i < |projects| && replies[i].Open? && g == Gauge([projects[i]], Waiting(replies[i].current));
      WaitingCount(replies[i].current);
    }
  }

  // ---------- What the tallies say, told from the listed reviews

  function WasRequested(r: Review): bool {
    r.reviewers != []
  }

  function MergedBy(name: string): Review -> bool {
    (r: Review) => r.mergedBy == Some(name)
  }

  function TimesRequested(name: string): Review -> nat {
    (r: Review) => multiset(r.reviewers)[name]
  }

  function ListFailed(r: Reviewed): bool {
    r.OpenFailed? || (r.Open? && r.merged.None?)
  }

  lemma {:induction false} WaitingCount(rs: seq<Review>)
    ensures Waiting(rs) == Count(WasRequested, rs)
  {
    if rs != [] {
      WaitingCount(rs[..|rs| - 1]);
    }
  }

  lemma {:induction false} AssignmentsCount(rs: seq<Review>, name: string)
    ensures multiset(Assignments(rs))[name] == NatSum(TimesRequested(name), rs)
  {
    if rs != [] {
      AssignmentsCount(rs[..|rs| - 1], name);
    }
  }

  lemma {:induction false} MergersCount(rs: seq<Review>, name: string)
    ensures multiset(Mergers(rs))[name] == Count(MergedBy(name), rs)
  {
    if rs != [] {
      MergersCount(rs[..|rs| - 1], name);
    }
  }

  /** How often a project's fetched listings name this reviewer. */
  ghost function RequestsOf(projects: seq<string>, replies: seq<Reviewed>, n: nat, project: string, name: string): nat
    requires n <= |projects| == |replies|
  {
    if n == 0 then 0
    else
      var r := replies[n - 1];
      RequestsOf(projects, replies, n - 1, project, name)
      + if r.Open? && projects[n - 1] == project then
          NatSum(TimesRequested(name), r.current) + NatSum(TimesRequested(name), MergedList(r))
        else 0
  }

  /** How many of a project's merged merge requests this user merged. */
  ghost function MergesOf(projects: seq<string>, replies: seq<Reviewed>, n: nat, project: string, name: string): nat
    requires n <= |projects| == |replies|
  {
    if n == 0 then 0
    else
      var r := replies[n - 1];
      MergesOf(projects, replies, n - 1, project, name)
      + if r.Open? && projects[n - 1] == project then Count(MergedBy(name), MergedList(r)) else 0
  }

  lemma {:induction false} RequestTuples(projects: seq<string>, replies: seq<Reviewed>, n: nat, project: string, name: string)
    requires n <= |projects| == |replies|
    ensures TupleCount(RequestBatches(projects, replies, n), project, [name]) == RequestsOf(projects, replies, n, project, name)
  {
    if n > 0 {
      RequestTuples(projects, replies, n - 1, project, name);
      var r := replies[n - 1];
      if r.Open? {
        SinglesCount(Requests(r), name);
        AssignmentsCount(r.current, name);
        AssignmentsCount(MergedList(r), name);
        assert multiset(Requests(r))[name] == NatSum(TimesRequested(name), r.current) + NatSum(TimesRequested(name), MergedList(r));
        TupleCountSnoc(RequestBatches(projects, replies, n - 1), Batch(projects[n - 1], Singles(Requests(r))), project, [name]);
      }
    }
  }

  lemma {:induction false} MergeTuples(projects: seq<string>, replies: seq<Reviewed>, n: nat, project: string, name: string)
    requires n <= |projects| == |replies|
    ensures TupleCount(ApprovalBatches(projects, replies, n), project, [name]) == MergesOf(projects, replies, n, project, name)
  {
    if n > 0 {
      MergeTuples(projects, replies, n - 1, project, name);
      var r := replies[n - 1];
      if r.Open? {
        SinglesCount(Mergers(MergedList(r)), name);
        MergersCount(MergedList(r), name);
        TupleCountSnoc(ApprovalBatches(projects, replies, n - 1),
                       Batch(projects[n - 1], Singles(Mergers(MergedList(r)))), project, [name]);
      }
    }
  }

  /** Each reviewer's gauges read as how often the project's fetched listings name and merge by them. */
  lemma ReviewersRead(projects: seq<string>, replies: seq<Reviewed>, t: Tallies, project: string, name: string)
    requires |projects| == |replies| && Tallied(projects, replies, |projects|, t)
    ensures Reading(t.requested, [project] + [name]) == RequestsOf(projects, replies, |projects|, project, name)
    ensures Reading(t.approvals, [project] + [name]) == MergesOf(projects, replies, |projects|, project, name)
  {
    var n := |projects|;
    GaugesRead(t.requested, RequestBatches(projects, replies, n), project, [name]);
    GaugesRead(t.approvals, ApprovalBatches(projects, replies, n), project, [name]);
    RequestTuples(projects, replies, n, project, name);
    MergeTuples(projects, replies, n, project, name);
  }

  lemma {:induction false} ErrorsCounted(replies: seq<Reviewed>, n: nat)
    requires n <= |replies|
    ensures Errors(replies, n) == Count(ListFailed, replies[..n])
  {
    if n > 0 {
      ErrorsCounted(replies, n - 1);
      PrefixSnoc(replies, n - 1);
      FilterSnoc(ListFailed, replies[..n - 1], replies[n - 1]);
    }
  }

  /** The error counter is the number of projects one of whose listings failed. */
  lemma ReviewErrors(projects: seq<string>, replies: seq<Reviewed>, t: Tallies)
    requires |projects| == |replies| && Tallied(projects, replies, |projects|, t)
    ensures t.scrapeErrors == Count(ListFailed, replies)
  {
    ErrorsCounted(replies, |replies|);
    assert replies[..|replies|] == replies;
  }

  /** One listed merge request, with the listing it comes from. */
  datatype Occasion = Occasion(project: string, review: Review, merged: bool)

  ghost function Occasions(project: string, rs: seq<Review>, merged: bool): (os: seq<Occasion>)
    ensures |os| == |rs|
  {
    Map((r: Review) => Occasion(project, r, merged), rs)
  }

  /** Everything listed, project by project, the open listing before the merged one. */
  ghost function AllOccasions(projects: seq<string>, replies: seq<Reviewed>, n: nat): seq<Occasion>
    requires n <= |projects| == |replies|
  {
    if n == 0 then []
    else if replies[n - 1].Open? then
      AllOccasions(projects, replies, n - 1)
      + Occasions(projects[n - 1], replies[n - 1].current, false)
      + Occasions(projects[n - 1], MergedList(replies[n - 1]), true)
    else AllOccasions(projects, replies, n - 1)
  }

  /** An estimate can be made: notes, a reviewer, and both ends of the review are known. */
  function Estimable(o: Occasion): bool {
    o.review.notes > 0 && o.review.reviewers != [] && o.review.createdAt.Some? && (o.merged ==> o.review.mergedAt.Some?)
  }

  /** v is filed under the first reviewer, and is a (notes + 1)-th of the time until the merge, or now for open ones. */
  ghost predicate Estimates(v: LabeledValue, o: Occasion)
    requires Estimable(o)
  {
    var end := if o.merged then o.review.mergedAt.value else o.review.now;
    && v.labels == [o.project, o.review.reviewers[0]]
    && v.value * (o.review.notes + 1) as real * SECOND as real == (end - o.review.createdAt.value) as real
  }

  /** values are the estimates of these occasions, in order. */
  ghost predicate EstimatesOf(values: seq<LabeledValue>, os: seq<Occasion>) {
    && |values| == |os|
    && forall i :: 0 <= i < |os| ==> Estimable(os[i]) && Estimates(values[i], os[i])
  }

  lemma EstimateOne(project: string, r: Review, merged: bool)
    ensures var (o, vs) := (Occasion(project, r, merged), Turnaround(project, r, if merged then r.mergedAt else Some(r.now)));
            if Estimable(o) then |vs| == 1 && Estimates(vs[0], o) else vs == []
  {
    if Estimable(Occasion(project, r, merged)) {
      var span := (if merged then r.mergedAt.value else r.now) - r.createdAt.value;
      SecondsBack(span, r.notes + 1);
    }
  }

  lemma SecondsBack(span: int, n: int)
    requires n > 0
    ensures Seconds(span) / n as real * n as real * SECOND as real == span as real
  {
    var q := Seconds(span) / n as real;
    assert q * n as real == Seconds(span);
  }

  lemma EstimatesSnoc(values: seq<LabeledValue>, os: seq<Occasion>, project: string, r: Review, merged: bool)
    requires EstimatesOf(values, Filter(Estimable, os))
    ensures EstimatesOf(values + Turnaround(project, r, if merged then r.mergedAt else Some(r.now)),
                        Filter(Estimable, os + [Occasion(project, r, merged)]))
  {
    FilterSnoc(Estimable, os, Occasion(project, r, merged));
    EstimateOne(project, r, merged);
    assert values + [] == values;
  }

  /** What one listing adds to the series. */
  ghost function ListedTurnarounds(project: string, rs: seq<Review>, merged: bool): seq<LabeledValue> {
    if merged then MergedTurnarounds(project, rs) else OpenTurnarounds(project, rs)
  }

  lemma ListedSnoc(values: seq<LabeledValue>, os: seq<Occasion>, project: string, rs: seq<Review>, merged: bool)
    requires rs != []
    ensures var (front, r) := (rs[..|rs| - 1], rs[|rs| - 1]);
            && values + ListedTurnarounds(project, rs, merged) ==
               values + ListedTurnarounds(project, front, merged) + Turnaround(project, r, if merged then r.mergedAt else Some(r.now))
            && os + Occasions(project, rs, merged) == os + Occasions(project, front, merged) + [Occasion(project, r, merged)]
  {
    var front, r := rs[..|rs| - 1], rs[|rs| - 1];
    ConcatAssociates(values, ListedTurnarounds(project, front, merged), Turnaround(project, r, if merged then r.mergedAt else Some(r.now)));
    assert Occasions(project, rs, merged) == Occasions(project, front, merged) + [Occasion(project, r, merged)];
    ConcatAssociates(os, Occasions(project, front, merged), [Occasion(project, r, merged)]);
  }

  lemma {:induction false} EstimatesListed(values: seq<LabeledValue>, os: seq<Occasion>, project: string, rs: seq<Review>, merged: bool)
    requires EstimatesOf(values, Filter(Estimable, os))
    ensures EstimatesOf(values + ListedTurnarounds(project, rs, merged), Filter(Estimable, os + Occasions(project, rs, merged)))
  {
    if rs == [] {
      assert values + [] == values && os + Occasions(project, rs, merged) == os;
    } else {
      var front, r := rs[..|rs| - 1], rs[|rs| - 1];
      EstimatesListed(values, os, project, front, merged);
      EstimatesSnoc(values + ListedTurnarounds(project, front, merged), os + Occasions(project, front, merged), project, r, merged);
      ListedSnoc(values, os, project, rs, merged);
    }
  }

  lemma {:induction false} TurnaroundsEstimate(projects: seq<string>, replies: seq<Reviewed>, n: nat)
    requires n <= |projects| == |replies|
    ensures EstimatesOf(Turnarounds(projects, replies, n), Filter(Estimable, AllOccasions(projects, replies, n)))
  {
    if n > 0 {
      TurnaroundsEstimate(projects, replies, n - 1);
      if replies[n - 1].Open? {
        var project, r := projects[n - 1], replies[n - 1];
        var values, os := Turnarounds(projects, replies, n - 1), AllOccasions(projects, replies, n - 1);
        EstimatesListed(values, os, project, r.current, false);
        EstimatesListed(values + OpenTurnarounds(project, r.current), os + Occasions(project, r.current, false),
                        project, MergedList(r), true);
      }
    }
  }

  /** The turnaround series lists the reviews that can be estimated, in order, with first reviewer and estimate. */
  lemma TurnaroundPublished(projects: seq<string>, replies: seq<Reviewed>, t: Tallies)
    requires |projects| == |replies| && Tallied(projects, replies, |projects|, t)
    ensures EstimatesOf(t.turnaround, Filter(Estimable, AllOccasions(projects, replies, |projects|)))
  {
    TurnaroundsEstimate(projects, replies, |projects|);
  }

  // ---------- No duplicate series

  lemma {:induction false} TallyBatches(projects: seq<string>, replies: seq<Reviewed>, n: nat)
    requires n <= |projects| == |replies| && Distinct(projects)
    ensures BatchesOf(RequestBatches(projects, replies, n), projects, n)
    ensures BatchesOf(ApprovalBatches(projects, replies, n), projects, n)
  {
    if n > 0 {
      TallyBatches(projects, replies, n - 1);
      var r := replies[n - 1];
      BatchesOfNext(RequestBatches(projects, replies, n - 1), projects, n,
                    Batch(projects[n - 1], if r.Open? then Singles(Requests(r)) else []));
      BatchesOfNext(ApprovalBatches(projects, replies, n - 1), projects, n,
                    Batch(projects[n - 1], if r.Open? then Singles(Mergers(MergedList(r))) else []));
    }
  }

  lemma {:induction false} PendingDistinct(projects: seq<string>, replies: seq<Reviewed>, n: nat)
    requires n <= |projects| == |replies| && Distinct(projects)
    ensures LabelsDistinct(Pending(projects, replies, n))
  {
    if n > 0 {
      PendingDistinct(projects, replies, n - 1);
      var front := Pending(projects, replies, n - 1);
      forall i | 0 <= i < |front|
        ensures front[i].labels != [projects[n - 1]]
      {
        PendingGauges(projects, replies, n - 1, front[i]);
        var j :| 0 <= j < n - 1 && replies[j].Open? && front[i] == Gauge([projects[j]], Waiting(replies[j].current));
        assert front[i].labels[0] != projects[n - 1];
      }
    }
  }

  lemma {:induction false} TurnaroundLabels(projects: seq<string>, replies: seq<Reviewed>, n: nat)
    requires n <= |projects| == |replies|
    ensures TwoLabels(Turnarounds(projects, replies, n))
  {
    if n > 0 {
      TurnaroundLabels(projects, replies, n - 1);
      if replies[n - 1].Open? {
        ListedLabels(projects[n - 1], replies[n - 1].current);
        ListedLabels(projects[n - 1], MergedList(replies[n - 1]));
      }
    }
  }

  lemma {:induction false} ListedLabels(project: string, rs: seq<Review>)
    ensures TwoLabels(OpenTurnarounds(project, rs)) && TwoLabels(MergedTurnarounds(project, rs))
  {
    if rs != [] {
      ListedLabels(project, rs[..|rs| - 1]);
    }
  }

  /** In every scrape of every completed cycle over distinct projects no descriptor carries the same labels twice. */
  lemma ReviewScrapeHasNoDuplicates(projects: seq<string>, replies: seq<Reviewed>, t: Tallies, x: ReviewExposition)
    requires Distinct(projects) && |projects| == |replies|
    requires Tallied(projects, replies, |projects|, t) && Scrapes(x, t)
    ensures LabelsDistinct(x.approvals) && LabelsDistinct(x.requested) && LabelsDistinct(x.pending)
    ensures SeriesDistinct(x.turnaround)
  {
    var n := |projects|;
    TallyBatches(projects, replies, n);
    NoDuplicateSeries(t.approvals, ApprovalBatches(projects, replies, n));
    NoDuplicateSeries(t.requested, RequestBatches(projects, replies, n));
    PendingDistinct(projects, replies, n);
    TurnaroundLabels(projects, replies, n);
    var order :| RangeOrder(order, PairSet(t.turnaround)) && x.turnaround == Emitted(t.turnaround, DEFAULT_REVIEW_BUCKETS, 2, order);
    NoDuplicateHistograms(t.turnaround, DEFAULT_REVIEW_BUCKETS, order);
  }
}
