/** internal/collector/merge_requests.go: one pass over merge requests feeding eight accumulators. */
module MergeRequests {
  import opened Prelude
  import opened Tally
  import opened Histograms
  import opened Gauges
  import Decimal

  datatype MergeRequest = MergeRequest(targetBranch: string, state: string, notes: int, changesCount: string,
                                       createdAt: Option<Time>, mergedAt: Option<Time>, closedAt: Option<Time>)

  /** A merge request and the clock reading taken while it is processed. */
  datatype Timed = Timed(mr: MergeRequest, now: Time)

  /** What the cycle meets at one project: a cancelled context, a failed listing, or a listing. */
  datatype Reply = Cancelled | Failed | Listed(mrs: seq<Timed>)

  datatype Series = TimeToMerge | TimeToFirstReview | ReviewCycles | ChangesCount | NotesCount | OpenDuration

  datatype Observations = Observations(timeToMerge: seq<LabeledValue>, timeToFirstReview: seq<LabeledValue>,
                                       reviewCycles: seq<LabeledValue>, changesCount: seq<LabeledValue>,
                                       notesCount: seq<LabeledValue>, openDuration: seq<LabeledValue>,
                                       status: seq<Gauge>, throughput: seq<Gauge>, scrapeErrors: nat)
  {
    function Values(series: Series): seq<LabeledValue> {
      match series
      case TimeToMerge => timeToMerge
      case TimeToFirstReview => timeToFirstReview
      case ReviewCycles => reviewCycles
      case ChangesCount => changesCount
      case NotesCount => notesCount
      case OpenDuration => openDuration
    }
  }

  const NO_OBSERVATIONS := Observations([], [], [], [], [], [], [], [], 0)

  // ---------- What one cycle should observe

  function Seconds(span: int): real {
    span as real / SECOND as real
  }

  /** When the merge request stopped being open, judged by its state. */
  function Ended(mr: MergeRequest, now: Time): Option<Time> {
    if mr.state == "merged" then mr.mergedAt
    else if mr.state == "closed" then mr.closedAt
    else if mr.state == "opened" then Some(now)
    else None
  }

  /** The instant the review estimate runs to, judged by the timestamps alone. */
  function LastActivity(mr: MergeRequest, now: Time): Time {
    if mr.mergedAt.Some? then mr.mergedAt.value
    else if mr.closedAt.Some? then mr.closedAt.value
    else now
  }

  /** What a merge request contributes to a series, if anything. */
  function Sample(series: Series, x: Timed): Option<real> {
    var mr := x.mr;
    match series
    case NotesCount => Some(mr.notes as real)
    case ChangesCount => if mr.changesCount == "" then None else Some(Decimal.Value(mr.changesCount) as real)
    case ReviewCycles => if mr.notes > 0 then Some(((mr.notes + 1) / 2) as real) else None
    case TimeToMerge =>
      if mr.state == "merged" && mr.mergedAt.Some? && mr.createdAt.Some? then
        Some(Seconds(mr.mergedAt.value - mr.createdAt.value))
      else None
    case OpenDuration =>
      if Ended(mr, x.now).Some? && mr.createdAt.Some? then
        Some(Seconds(Ended(mr, x.now).value - mr.createdAt.value))
      else None
    case TimeToFirstReview =>
      if mr.notes > 0 && mr.createdAt.Some? then
        Some(Seconds(LastActivity(mr, x.now) - mr.createdAt.value) / (mr.notes + 1) as real)
      else None
  }

  /** A merge request listed under a project. */
  datatype Entry = Entry(project: string, timed: Timed)

  function Contribution(series: Series, e: Entry): (vs: seq<LabeledValue>)
    ensures |vs| <= 1
  {
    var v := Sample(series, e.timed);
    if v.Some? then [LabeledValue([e.project, e.timed.mr.targetBranch], v.value)] else []
  }

  /** A series over a list of entries. */
  ghost function Samples(series: Series, entries: seq<Entry>): seq<LabeledValue> {
    if entries == [] then []
    else Samples(series, entries[..|entries| - 1]) + Contribution(series, entries[|entries| - 1])
  }

  function Tagged(project: string, mrs: seq<Timed>): (es: seq<Entry>)
    ensures |es| == |mrs|
  {
    seq(|mrs|, i requires 0 <= i < |mrs| => Entry(project, mrs[i]))
  }

  /** Everything listed in the first n replies, in order. */
  ghost function Entries(projects: seq<string>, replies: seq<Reply>, n: nat): seq<Entry>
    requires n <= |projects| == |replies|
  {
    if n == 0 then []
    else if replies[n - 1].Listed? then Entries(projects, replies, n - 1) + Tagged(projects[n - 1], replies[n - 1].mrs)
    else Entries(projects, replies, n - 1)
  }

  /** The (branch, state) pairs that are counted. */
  ghost function StatusTuples(mrs: seq<Timed>): (ts: seq<seq<string>>)
    ensures |ts| == |mrs|
  {
    seq(|mrs|, i requires 0 <= i < |mrs| => [mrs[i].mr.targetBranch, mrs[i].mr.state])
  }

  /** The target branches of the merged ones. */
  ghost function MergedBranches(mrs: seq<Timed>): seq<string> {
    if mrs == [] then []
    else
      var last := mrs[|mrs| - 1].mr;
      MergedBranches(mrs[..|mrs| - 1]) + if last.state == "merged" then [last.targetBranch] else []
  }

  ghost function StatusBatches(projects: seq<string>, replies: seq<Reply>, n: nat): seq<Batch>
    requires n <= |projects| == |replies|
  {
    if n == 0 then []
    else if replies[n - 1].Listed? then StatusBatches(projects, replies, n - 1) + [Batch(projects[n - 1], StatusTuples(replies[n - 1].mrs))]
    else StatusBatches(projects, replies, n - 1)
  }

  ghost function ThroughputBatches(projects: seq<string>, replies: seq<Reply>, n: nat): seq<Batch>
    requires n <= |projects| == |replies|
  {
    if n == 0 then []
    else if replies[n - 1].Listed? then ThroughputBatches(projects, replies, n - 1) + [Batch(projects[n - 1], Singles(MergedBranches(replies[n - 1].mrs)))]
    else ThroughputBatches(projects, replies, n - 1)
  }

  ghost function Failures(replies: seq<Reply>, n: nat): nat
    requires n <= |replies|
  {
    if n == 0 then 0 else Failures(replies, n - 1) + if replies[n - 1].Failed? then 1 else 0
  }

  /** obs is what the first n projects of a cycle contribute; gauge order is any map iteration order. */
  ghost predicate Observes(projects: seq<string>, replies: seq<Reply>, n: nat, obs: Observations)
    requires n <= |projects| == |replies|
  {
    && (forall series :: obs.Values(series) == Samples(series, Entries(projects, replies, n)))
    && EmitsAll(obs.status, StatusBatches(projects, replies, n))
    && EmitsAll(obs.throughput, ThroughputBatches(projects, replies, n))
    && obs.scrapeErrors == Failures(replies, n)
  }

  /** obs is the result of a whole cycle over these projects. */
  ghost predicate IsResult(projects: seq<string>, replies: seq<Reply>, obs: Observations) {
    && |projects| == |replies|
    && (forall i :: 0 <= i < |replies| ==> !replies[i].Cancelled?)
    && Observes(projects, replies, |projects|, obs)
  }

  // ---------- The loops

  lemma {:induction false} SamplesConcat(series: Series, a: seq<Entry>, b: seq<Entry>)
    ensures Samples(series, a + b) == Samples(series, a) + Samples(series, b)
  {
    if b == [] {
      assert a + b == a;
    } else {
      assert (a + b)[..|a + b| - 1] == a + b[..|b| - 1];
      SamplesConcat(series, a, b[..|b| - 1]);
    }
  }

  /** obs after a series has taken what one entry contributes to it. */
  function Extend(obs: Observations, series: Series, e: Entry): Observations {
    var more := Contribution(series, e);
    match series
    case TimeToMerge => obs.(timeToMerge := obs.timeToMerge + more)
    case TimeToFirstReview => obs.(timeToFirstReview := obs.timeToFirstReview + more)
    case ReviewCycles => obs.(reviewCycles := obs.reviewCycles + more)
    case ChangesCount => obs.(changesCount := obs.changesCount + more)
    case NotesCount => obs.(notesCount := obs.notesCount + more)
    case OpenDuration => obs.(openDuration := obs.openDuration + more)
  }

  method RecordCounts(obs: Observations, project: string, x: Timed) returns (obs': Observations)
    ensures obs' == Extend(Extend(obs, NotesCount, Entry(project, x)), ChangesCount, Entry(project, x))
  {
    var mr, labels := x.mr, [project, x.mr.targetBranch];
    obs' := obs.(notesCount := obs.notesCount + [LabeledValue(labels, mr.notes as real)]);
    if mr.changesCount != "" {
      var changes := Decimal.ReadChanges(mr.changesCount);
      obs' := obs'.(changesCount := obs'.changesCount + [LabeledValue(labels, changes as real)]);
    }
  }

  method RecordDurations(obs: Observations, project: string, x: Timed) returns (obs': Observations)
    ensures obs' == Extend(Extend(obs, TimeToMerge, Entry(project, x)), OpenDuration, Entry(project, x))
  {
    obs' := obs;
    var mr, labels := x.mr, [project, x.mr.targetBranch];
    if mr.state == "merged" {
      if mr.mergedAt.Some? && mr.createdAt.Some? {
        var ttm := Seconds(mr.mergedAt.value - mr.createdAt.value);
        obs' := obs'.(timeToMerge := obs'.timeToMerge + [LabeledValue(labels, ttm)]);
        obs' := obs'.(openDuration := obs'.openDuration + [LabeledValue(labels, ttm)]);
      }
    } else if mr.state == "closed" {
      if mr.closedAt.Some? && mr.createdAt.Some? {
        var dur := Seconds(mr.closedAt.value - mr.createdAt.value);
        obs' := obs'.(openDuration := obs'.openDuration + [LabeledValue(labels, dur)]);
      }
    } else if mr.state == "opened" {
      if mr.createdAt.Some? {
        var dur := Seconds(x.now - mr.createdAt.value);
        obs' := obs'.(openDuration := obs'.openDuration + [LabeledValue(labels, dur)]);
      }
    }
  }

  method RecordReviews(obs: Observations, project: string, x: Timed) returns (obs': Observations)
    ensures obs' == Extend(Extend(obs, TimeToFirstReview, Entry(project, x)), ReviewCycles, Entry(project, x))
  {
    obs' := obs;
    var mr, labels := x.mr, [project, x.mr.targetBranch];
    if mr.notes > 0 && mr.createdAt.Some? {
      var endTime := x.now;
      if mr.mergedAt.Some? {
        endTime := mr.mergedAt.value;
      } else if mr.closedAt.Some? {
        endTime := mr.closedAt.value;
      }
      var total := Seconds(endTime - mr.createdAt.value);
      var approxFirst := total / (mr.notes + 1) as real;
      obs' := obs'.(timeToFirstReview := obs'.timeToFirstReview + [LabeledValue(labels, approxFirst)]);
    }
    if mr.notes > 0 {
      var cycles := ((mr.notes + 1) / 2) as real;
      obs' := obs'.(reviewCycles := obs'.reviewCycles + [LabeledValue(labels, cycles)]);
    }
  }

  /** The observations of a single merge request. */
  method Record(obs: Observations, project: string, x: Timed) returns (obs': Observations)
    ensures forall series :: obs'.Values(series) == obs.Values(series) + Contribution(series, Entry(project, x))
    ensures obs'.status == obs.status && obs'.throughput == obs.throughput && obs'.scrapeErrors == obs.scrapeErrors
  {
    var counted := RecordCounts(obs, project, x);
    var timed := RecordDurations(counted, project, x);
    obs' := RecordReviews(timed, project, x);
  }

  type StatusCounts = map<string, map<string, nat>>

  /** The nested branch -> state -> count map holds exactly the tuples, with their multiplicity. */
  ghost predicate CountsStatus(counts: StatusCounts, tuples: seq<seq<string>>) {
    && (forall b, s :: b in counts && s in counts[b] ==> counts[b][s] == multiset(tuples)[[b, s]])
    && Elements(tuples) == Flat(counts, counts.Keys)
  }

  /** The [branch, state] tuples of the given branches. */
  ghost function Flat(counts: StatusCounts, branches: set<string>): set<seq<string>> {
    set b, s | b in branches && b in counts && s in counts[b] :: [b, s]
  }

  /** `statusCounts[branch][state]++`, creating the inner map when it is missing. */
  function BumpStatus(counts: StatusCounts, branch: string, state: string): StatusCounts {
    counts[branch := Bump(if branch in counts then counts[branch] else map[], state)]
  }

  lemma TwoLabelTuple(b: string, s: string, c: string, t: string)
    ensures [b, s] == [c, t] <==> b == c && s == t
  {
    assert [b, s][0] == b && [b, s][1] == s && [c, t][0] == c && [c, t][1] == t;
  }

  lemma BumpStatusCounts(counts: StatusCounts, tuples: seq<seq<string>>, branch: string, state: string)
    requires CountsStatus(counts, tuples)
    ensures CountsStatus(BumpStatus(counts, branch, state), tuples + [[branch, state]])
  {
    var after, all := BumpStatus(counts, branch, state), tuples + [[branch, state]];
    assert Flat(after, after.Keys) == Flat(counts, counts.Keys) + {[branch, state]};
    assert Elements(all) == Elements(tuples) + {[branch, state]};
    assert multiset(all) == multiset(tuples) + multiset{[branch, state]};
    forall b, s | b in after && s in after[b]
      ensures after[b][s] == multiset(all)[[b, s]]
    {
      TwoLabelTuple(b, s, branch, state);
      if !(b in counts && s in counts[b]) {
        assert [b, s] !in tuples by {
          NotFlat(counts, b, s);
        }
      }
    }
  }

  lemma NotFlat(counts: StatusCounts, b: string, s: string)
    requires !(b in counts && s in counts[b])
    ensures [b, s] !in Flat(counts, counts.Keys)
  {
    forall c, t | c in counts && t in counts[c]
      ensures [c, t] != [b, s]
    {
      TwoLabelTuple(b, s, c, t);
    }
  }

  /** The inner loop over one branch's states. */
  method AppendStates(segment: seq<Gauge>, project: string, branch: string, states: map<string, nat>,
                      ghost batch: Batch, ghost order: seq<seq<string>>, ghost visited: set<seq<string>>)
    returns (segment': seq<Gauge>, ghost order': seq<seq<string>>)
    requires batch.project == project && segment == Emission(batch, order) && RangeOrder(order, visited)
    requires forall s :: s in states ==> states[s] == multiset(batch.tuples)[[branch, s]] && [branch, s] !in visited
    ensures segment' == Emission(batch, order')
    ensures RangeOrder(order', visited + set s | s in states :: [branch, s])
  {
    segment', order' := segment, order;
    ghost var seen := visited;
    var todo := states.Keys;
    while todo != {}
      invariant todo <= states.Keys
      invariant seen == visited + set s | s in states.Keys - todo :: [branch, s]
      invariant segment' == Emission(batch, order') && RangeOrder(order', seen)
      decreases todo
    {
      var state :| state in todo;
      forall s | s in states
        ensures [branch, s] == [branch, state] <==> s == state
      {
        TwoLabelTuple(branch, s, branch, state);
      }
      RangeOrderSnoc(order', seen, [branch, state]);
      assert [project] + [branch, state] == [project, branch, state];
      segment' := segment' + [Gauge([project, branch, state], states[state])];
      order' := order' + [[branch, state]];
      seen := seen + {[branch, state]};
      todo := todo - {state};
    }
    assert states.Keys - todo == states.Keys;
  }

  /** The nested loops that emit one project's status gauges. */
  method AppendStatus(gauges: seq<Gauge>, project: string, counts: StatusCounts,
                      ghost tuples: seq<seq<string>>, ghost batches: seq<Batch>)
    returns (gauges': seq<Gauge>)
    requires EmitsAll(gauges, batches) && CountsStatus(counts, tuples)
    ensures EmitsAll(gauges', batches + [Batch(project, tuples)])
  {
    var segment: seq<Gauge> := [];
    ghost var batch, order, visited := Batch(project, tuples), [], {};
    var todo := counts.Keys;
    while todo != {}
      invariant todo <= counts.Keys
      invariant visited == Flat(counts, counts.Keys - todo)
      invariant segment == Emission(batch, order) && RangeOrder(order, visited)
      decreases todo
    {
      var branch :| branch in todo;
      forall s | s in counts[branch]
        ensures [branch, s] !in visited
      {
        forall c, t | c in counts.Keys - todo && t in counts[c]
          ensures [c, t] != [branch, s]
        {
          TwoLabelTuple(c, t, branch, s);
        }
      }
      segment, order := AppendStates(segment, project, branch, counts[branch], batch, order, visited);
      visited := visited + set s | s in counts[branch] :: [branch, s];
      todo := todo - {branch};
    }
    assert counts.Keys - todo == counts.Keys;
    assert Emits(segment, batch);
    gauges' := gauges + segment;
    EmitsAllSnoc(gauges, batches, segment, batch);
  }

  lemma TaggedSnoc(project: string, mrs: seq<Timed>, i: nat)
    requires i < |mrs|
    ensures Tagged(project, mrs[..i + 1]) == Tagged(project, mrs[..i]) + [Entry(project, mrs[i])]
    ensures StatusTuples(mrs[..i + 1]) == StatusTuples(mrs[..i]) + [[mrs[i].mr.targetBranch, mrs[i].mr.state]]
    ensures MergedBranches(mrs[..i + 1]) ==
            MergedBranches(mrs[..i]) + if mrs[i].mr.state == "merged" then [mrs[i].mr.targetBranch] else []
  {
    assert mrs[..i + 1][..i] == mrs[..i];
  }

  lemma SamplesSnoc(series: Series, entries: seq<Entry>, e: Entry)
    ensures Samples(series, entries + [e]) == Samples(series, entries) + Contribution(series, e)
  {
    assert (entries + [e])[..|entries|] == entries;
  }

  /** obs' is obs with every series extended by these entries. */
  ghost predicate Extended(obs: Observations, obs': Observations, entries: seq<Entry>) {
    && (forall series :: obs'.Values(series) == obs.Values(series) + Samples(series, entries))
    && obs'.status == obs.status && obs'.throughput == obs.throughput && obs'.scrapeErrors == obs.scrapeErrors
  }

  lemma SeriesSnoc(obs: Observations, before: Observations, after: Observations, entries: seq<Entry>, e: Entry)
    requires Extended(obs, before, entries)
    requires forall series :: after.Values(series) == before.Values(series) + Contribution(series, e)
    requires after.status == before.status && after.throughput == before.throughput && after.scrapeErrors == before.scrapeErrors
    ensures Extended(obs, after, entries + [e])
  {
    forall series
      ensures after.Values(series) == obs.Values(series) + Samples(series, entries + [e])
    {
      SamplesSnoc(series, entries, e);
      assert after.Values(series) == before.Values(series) + Contribution(series, e);
      assert before.Values(series) == obs.Values(series) + Samples(series, entries);
    }
  }

  /** The loop over one project's merge requests: observations appended, both counting maps filled. */
  method RecordAll(obs: Observations, project: string, mrs: seq<Timed>)
    returns (obs': Observations, throughput: map<string, nat>, status: StatusCounts)
    ensures Extended(obs, obs', Tagged(project, mrs))
    ensures Counts(throughput, MergedBranches(mrs)) && CountsStatus(status, StatusTuples(mrs))
  {
    obs', throughput, status := obs, map[], map[];
    for i := 0 to |mrs|
      invariant Extended(obs, obs', Tagged(project, mrs[..i]))
      invariant Counts(throughput, MergedBranches(mrs[..i]))
      invariant CountsStatus(status, StatusTuples(mrs[..i]))
    {
      var mr := mrs[i].mr;
      TaggedSnoc(project, mrs, i);
      BumpStatusCounts(status, StatusTuples(mrs[..i]), mr.targetBranch, mr.state);
      status := BumpStatus(status, mr.targetBranch, mr.state);
      if mr.state == "merged" {
        BumpCounts(throughput, MergedBranches(mrs[..i]), mr.targetBranch);
        throughput := Bump(throughput, mr.targetBranch);
      }
      ghost var before := obs';
      obs' := Record(obs', project, mrs[i]);
      SeriesSnoc(obs, before, obs', Tagged(project, mrs[..i]), Entry(project, mrs[i]));
    }
    assert mrs[..|mrs|] == mrs;
  }

  /** One project of a cycle whose listing succeeded. */
  method CollectProject(obs: Observations, project: string, mrs: seq<Timed>,
                        ghost statuses: seq<Batch>, ghost merged: seq<Batch>)
    returns (obs': Observations)
    requires EmitsAll(obs.status, statuses) && EmitsAll(obs.throughput, merged)
    ensures forall series :: obs'.Values(series) == obs.Values(series) + Samples(series, Tagged(project, mrs))
    ensures EmitsAll(obs'.status, statuses + [Batch(project, StatusTuples(mrs))])
    ensures EmitsAll(obs'.throughput, merged + [Batch(project, Singles(MergedBranches(mrs)))])
    ensures obs'.scrapeErrors == obs.scrapeErrors
  {
    var recorded, throughputByBranch, statusCounts := RecordAll(obs, project, mrs);
    var status := AppendStatus(recorded.status, project, statusCounts, StatusTuples(mrs), statuses);
    var throughput := AppendCounts(recorded.throughput, project, throughputByBranch, MergedBranches(mrs), merged);
    obs' := recorded.(status := status, throughput := throughput);
  }

  /** A failed listing adds an error and nothing else. */
  lemma FailureObserved(projects: seq<string>, replies: seq<Reply>, i: nat, obs: Observations)
    requires i < |projects| == |replies| && Observes(projects, replies, i, obs) && replies[i].Failed?
    ensures Observes(projects, replies, i + 1, obs.(scrapeErrors := obs.scrapeErrors + 1))
  {
    var obs' := obs.(scrapeErrors := obs.scrapeErrors + 1);
    forall series
      ensures obs'.Values(series) == Samples(series, Entries(projects, replies, i + 1))
    {
      assert obs'.Values(series) == obs.Values(series);
    }
  }

  /** A listing extends every series and both gauge lists. */
  lemma {:induction false} ListingObserved(projects: seq<string>, replies: seq<Reply>, i: nat, obs: Observations, obs': Observations)
    requires i < |projects| == |replies| && Observes(projects, replies, i, obs) && replies[i].Listed?
    requires forall series :: obs'.Values(series) == obs.Values(series) + Samples(series, Tagged(projects[i], replies[i].mrs))
    requires EmitsAll(obs'.status, StatusBatches(projects, replies, i) + [Batch(projects[i], StatusTuples(replies[i].mrs))])
    requires EmitsAll(obs'.throughput,
                      ThroughputBatches(projects, replies, i) + [Batch(projects[i], Singles(MergedBranches(replies[i].mrs)))])
    requires obs'.scrapeErrors == obs.scrapeErrors
    ensures Observes(projects, replies, i + 1, obs')
  {
    forall series
      ensures obs'.Values(series) == Samples(series, Entries(projects, replies, i + 1))
    {
      SamplesConcat(series, Entries(projects, replies, i), Tagged(projects[i], replies[i].mrs));
      assert obs.Values(series) == Samples(series, Entries(projects, replies, i));
    }
  }

  /** One project of a cycle. */
  method ObserveProject(projects: seq<string>, replies: seq<Reply>, i: nat, obs: Observations) returns (obs': Observations)
    requires i < |projects| == |replies| && Observes(projects, replies, i, obs) && !replies[i].Cancelled?
    ensures Observes(projects, replies, i + 1, obs')
  {
    if replies[i].Failed? {
      FailureObserved(projects, replies, i, obs);
      obs' := obs.(scrapeErrors := obs.scrapeErrors + 1);
    } else {
      obs' := CollectProject(obs, projects[i], replies[i].mrs,
                             StatusBatches(projects, replies, i), ThroughputBatches(projects, replies, i));
      ListingObserved(projects, replies, i, obs, obs');
    }
  }

  lemma NothingObserved(projects: seq<string>, replies: seq<Reply>)
    requires |projects| == |replies|
    ensures Observes(projects, replies, 0, NO_OBSERVATIONS)
  {
  }

  /** Everything a scrape sends. */
  datatype Exposition = Exposition(timeToMerge: seq<Histogram>, timeToFirstReview: seq<Histogram>,
                                   reviewCycles: seq<Histogram>, changesCount: seq<Histogram>,
                                   notesCount: seq<Histogram>, openDuration: seq<Histogram>,
                                   status: seq<Gauge>, throughput: seq<Gauge>, scrapeErrors: nat)
  {
    function Sent(series: Series): seq<Histogram> {
      match series
      case TimeToMerge => timeToMerge
      case TimeToFirstReview => timeToFirstReview
      case ReviewCycles => reviewCycles
      case ChangesCount => changesCount
      case NotesCount => notesCount
      case OpenDuration => openDuration
    }
  }

  /** Durations use the configured bounds, counts the default ones. */
  function BoundsOf(series: Series, bounds: seq<real>, defaults: seq<real>): seq<real> {
    match series
    case TimeToMerge | TimeToFirstReview | OpenDuration => bounds
    case ReviewCycles | ChangesCount | NotesCount => defaults
  }

  /** hs is what the descriptors of two labels send for these values. */
  ghost predicate SendsPairs(hs: seq<Histogram>, values: seq<LabeledValue>, bounds: seq<real>) {
    Sends(hs, values, bounds, 2)
  }

  /** x is a scrape of obs. */
  ghost predicate Exposes(x: Exposition, obs: Observations, bounds: seq<real>, defaults: seq<real>) {
    && (forall series :: SendsPairs(x.Sent(series), obs.Values(series), BoundsOf(series, bounds, defaults)))
    && x.status == obs.status && x.throughput == obs.throughput && x.scrapeErrors == obs.scrapeErrors
  }

  const DEFAULT_MR_BUCKETS: seq<real> :=
    [60.0, 300.0, 600.0, 1800.0, 3600.0, 7200.0, 14400.0, 28800.0, 43200.0, 86400.0, 172800.0, 604800.0]

  class MergeRequestsCollector {
    const configured: seq<real>
    var projects: seq<string>
    var observations: Observations

    constructor (configured: seq<real>, projects: seq<string>)
      ensures this.configured == configured
      ensures this.projects == projects && observations == NO_OBSERVATIONS
    {
      this.configured := configured;
      this.projects := projects;
      observations := NO_OBSERVATIONS;
    }

    method SetProjects(projects: seq<string>)
      modifies this`projects
      ensures this.projects == projects
    {
      this.projects := projects;
    }

    /** One collection cycle: published whole, or not at all when the context was found cancelled. */
    method Run(replies: seq<Reply>) returns (completed: bool)
      requires |replies| == |projects|
      modifies this`observations
      ensures completed <==> forall i :: 0 <= i < |replies| ==> !replies[i].Cancelled?
      ensures completed ==> IsResult(projects, replies, observations)
      ensures !completed ==> observations == old(observations)
    {
      var obs := NO_OBSERVATIONS;
      NothingObserved(projects, replies);
      for i := 0 to |projects|
        invariant forall j :: 0 <= j < i ==> !replies[j].Cancelled?
        invariant Observes(projects, replies, i, obs)
        invariant observations == old(observations)
      {
        if replies[i].Cancelled? {
          return false;
        }
        obs := ObserveProject(projects, replies, i, obs);
      }
      observations := obs;
      return true;
    }

    /** One scrape; defaults are the client library's default buckets. */
    method Collect(defaults: seq<real>) returns (x: Exposition)
      ensures |configured| > 0 ==> Exposes(x, observations, configured, defaults)
      ensures |configured| == 0 ==> Exposes(x, observations, DEFAULT_MR_BUCKETS, defaults)
    {
      var obs := observations;
      var bounds := if |configured| == 0 then DEFAULT_MR_BUCKETS else configured;
      var ttm := EmitHistograms(obs.timeToMerge, bounds, 2);
      var first := EmitHistograms(obs.timeToFirstReview, bounds, 2);
      var cycles := EmitHistograms(obs.reviewCycles, defaults, 2);
      var changes := EmitHistograms(obs.changesCount, defaults, 2);
      var notes := EmitHistograms(obs.notesCount, defaults, 2);
      var open := EmitHistograms(obs.openDuration, bounds, 2);
      x := Exposition(ttm, first, cycles, changes, notes, open, obs.status, obs.throughput, obs.scrapeErrors);
    }
  }
}
