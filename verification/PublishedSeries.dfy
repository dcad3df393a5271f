/** What a completed merge-request cycle publishes, told from the fields of the listed merge requests. */
module PublishedSeries {
  import opened Prelude
  import opened Histograms
  import opened HistogramTheorems
  import opened Gauges
  import opened MergeRequests
  import opened MergeRequestTheorems
  import Decimal

  // ---------- What is listed

  /** How many merge requests the first n replies list. */
  ghost function ListedBefore(replies: seq<Reply>, n: nat): nat
    requires n <= |replies|
  {
    if n == 0 then 0 else ListedBefore(replies, n - 1) + if replies[n - 1].Listed? then |replies[n - 1].mrs| else 0
  }

  /** The entries are the listed merge requests, one reply after another, each under its reply's project. */
  lemma {:induction false} EntryAt(projects: seq<string>, replies: seq<Reply>, n: nat, i: nat, j: nat)
    requires n <= |projects| == |replies|
    requires i < n && replies[i].Listed? && j < |replies[i].mrs|
    ensures |Entries(projects, replies, n)| == ListedBefore(replies, n)
    ensures ListedBefore(replies, i) + j < |Entries(projects, replies, n)|
    ensures Entries(projects, replies, n)[ListedBefore(replies, i) + j] == Entry(projects[i], replies[i].mrs[j])
  {
    EntriesLength(projects, replies, n - 1);
    if i < n - 1 {
      EntryAt(projects, replies, n - 1, i, j);
    }
  }

  lemma {:induction false} EntriesLength(projects: seq<string>, replies: seq<Reply>, n: nat)
    requires n <= |projects| == |replies|
    ensures |Entries(projects, replies, n)| == ListedBefore(replies, n)
  {
    if n > 0 {
      EntriesLength(projects, replies, n - 1);
    }
  }

  // ---------- From entries to a series

  /** The series holds one value for each of these entries, in order, under the entry's project and branch. */
  ghost predicate Lists(values: seq<LabeledValue>, es: seq<Entry>) {
    && |values| == |es|
    && forall i :: 0 <= i < |es| ==> values[i].labels == [es[i].project, es[i].timed.mr.targetBranch]
  }

  lemma {:induction false} SeriesLists(series: Series, entries: seq<Entry>, p: Entry -> bool)
    requires forall e :: p(e) <==> Sample(series, e.timed).Some?
    ensures Lists(Samples(series, entries), Filter(p, entries))
    ensures forall i :: 0 <= i < |Filter(p, entries)| ==>
              Some(Samples(series, entries)[i].value) == Sample(series, Filter(p, entries)[i].timed)
  {
    if entries != [] {
      var front, e := entries[..|entries| - 1], entries[|entries| - 1];
      assert entries == front + [e];
      SeriesLists(series, front, p);
      SamplesSnoc(series, front, e);
      FilterSnoc(p, front, e);
    }
  }

  lemma ResultLists(projects: seq<string>, replies: seq<Reply>, obs: Observations, series: Series, p: Entry -> bool)
    requires IsResult(projects, replies, obs)
    requires forall e :: p(e) <==> Sample(series, e.timed).Some?
    ensures var es := Filter(p, Entries(projects, replies, |projects|));
            && Lists(obs.Values(series), es)
            && forall i :: 0 <= i < |es| ==> Some(obs.Values(series)[i].value) == Sample(series, es[i].timed)
  {
    SeriesLists(series, Entries(projects, replies, |projects|), p);
  }

  lemma SecondsExact(span: int)
    ensures Seconds(span) * SECOND as real == span as real
  {
  }

  // ---------- Counts

  function HasChanges(e: Entry): bool {
    e.timed.mr.changesCount != ""
  }

  /** A printed count, capped or not, is published as that number. */
  ghost predicate ReadsChanges(v: LabeledValue, e: Entry) {
    && (forall n: nat :: e.timed.mr.changesCount in [Decimal.Print(n), Decimal.Print(n) + "+"] ==> v.value == n as real)
    && v.value == Decimal.Value(e.timed.mr.changesCount) as real
  }

  /** The changes series lists the merge requests with a non-empty count, in order, with the number it spells. */
  lemma ChangesPublished(projects: seq<string>, replies: seq<Reply>, obs: Observations)
    requires IsResult(projects, replies, obs)
    ensures var es := Filter(HasChanges, Entries(projects, replies, |projects|));
            Lists(obs.changesCount, es) && forall i :: 0 <= i < |es| ==> ReadsChanges(obs.changesCount[i], es[i])
  {
    ResultLists(projects, replies, obs, ChangesCount, HasChanges);
    assert obs.Values(ChangesCount) == obs.changesCount;
    var es := Filter(HasChanges, Entries(projects, replies, |projects|));
    forall i | 0 <= i < |es|
      ensures ReadsChanges(obs.changesCount[i], es[i])
    {
      ChangesRead(obs.changesCount[i], es[i]);
    }
  }

  lemma ChangesRead(v: LabeledValue, e: Entry)
    requires Some(v.value) == Sample(ChangesCount, e.timed)
    ensures ReadsChanges(v, e)
  {
    forall n: nat | e.timed.mr.changesCount in [Decimal.Print(n), Decimal.Print(n) + "+"]
      ensures v.value == n as real
    {
      Decimal.ReadInvertsPrint(n);
    }
  }

  /** The notes series lists every merge request with its number of notes. */
  lemma NotesPublished(projects: seq<string>, replies: seq<Reply>, obs: Observations)
    requires IsResult(projects, replies, obs)
    ensures var es := Entries(projects, replies, |projects|);
            Lists(obs.notesCount, es) && forall i :: 0 <= i < |es| ==> obs.notesCount[i].value == es[i].timed.mr.notes as real
  {
    var es := Entries(projects, replies, |projects|);
    assert obs.Values(NotesCount) == obs.notesCount;
    NotesListed(es);
  }

  lemma {:induction false} NotesListed(entries: seq<Entry>)
    ensures Lists(Samples(NotesCount, entries), entries)
    ensures forall i :: 0 <= i < |entries| ==> Samples(NotesCount, entries)[i].value == entries[i].timed.mr.notes as real
  {
    if entries != [] {
      NotesListed(entries[..|entries| - 1]);
    }
  }

  function HasNotes(e: Entry): bool {
    e.timed.mr.notes > 0
  }

  /** v is half of n, rounded up to a whole number. */
  predicate HalfRoundedUp(v: real, n: int) {
    v == v.Floor as real && 2 * v.Floor - 1 <= n <= 2 * v.Floor
  }

  /** The review-cycle series lists the merge requests with notes, each with half their number, rounded up. */
  lemma CyclesPublished(projects: seq<string>, replies: seq<Reply>, obs: Observations)
    requires IsResult(projects, replies, obs)
    ensures var es := Filter(HasNotes, Entries(projects, replies, |projects|));
            && Lists(obs.reviewCycles, es)
            && forall i :: 0 <= i < |es| ==> HalfRoundedUp(obs.reviewCycles[i].value, es[i].timed.mr.notes)
  {
    ResultLists(projects, replies, obs, ReviewCycles, HasNotes);
    assert obs.Values(ReviewCycles) == obs.reviewCycles;
    var es := Filter(HasNotes, Entries(projects, replies, |projects|));
    forall i | 0 <= i < |es|
      ensures HalfRoundedUp(obs.reviewCycles[i].value, es[i].timed.mr.notes)
    {
      CyclesRead(obs.reviewCycles[i].value, es[i].timed);
    }
  }

  lemma CyclesRead(v: real, x: Timed)
    requires Some(v) == Sample(ReviewCycles, x)
    ensures HalfRoundedUp(v, x.mr.notes)
  {
  }

  // ---------- Durations

  function WasMerged(e: Entry): bool {
    e.timed.mr.state == "merged" && e.timed.mr.mergedAt.Some? && e.timed.mr.createdAt.Some?
  }

  /** The time-to-merge series lists the merged ones whose dates are known, with the seconds between these. */
  lemma MergeTimesPublished(projects: seq<string>, replies: seq<Reply>, obs: Observations)
    requires IsResult(projects, replies, obs)
    ensures var es := Filter(WasMerged, Entries(projects, replies, |projects|));
            && Lists(obs.timeToMerge, es)
            && forall i :: 0 <= i < |es| ==>
                 var mr := es[i].timed.mr;
                 && mr.mergedAt.Some? && mr.createdAt.Some?
                 && obs.timeToMerge[i].value * SECOND as real == (mr.mergedAt.value - mr.createdAt.value) as real
  {
    ResultLists(projects, replies, obs, TimeToMerge, WasMerged);
    assert obs.Values(TimeToMerge) == obs.timeToMerge;
    var es := Filter(WasMerged, Entries(projects, replies, |projects|));
    forall i | 0 <= i < |es|
      ensures var mr := es[i].timed.mr;
              && mr.mergedAt.Some? && mr.createdAt.Some?
              && obs.timeToMerge[i].value * SECOND as real == (mr.mergedAt.value - mr.createdAt.value) as real
    {
      var mr := es[i].timed.mr;
      assert Sample(TimeToMerge, es[i].timed).Some?;
      SecondsExact(mr.mergedAt.value - mr.createdAt.value);
    }
  }

  /** The creation date is known, and so is the end that the state asks for. */
  function HasOpenTime(e: Entry): bool {
    var mr := e.timed.mr;
    && mr.createdAt.Some?
    && (mr.state == "opened" || (mr.state == "merged" && mr.mergedAt.Some?) || (mr.state == "closed" && mr.closedAt.Some?))
  }

  /** seconds run from the creation to the merge, the closing, or now, by state. */
  ghost predicate SpansOpenTime(seconds: real, x: Timed) {
    && x.mr.createdAt.Some?
    && (x.mr.state == "merged" ==> x.mr.mergedAt.Some? && seconds * SECOND as real == (x.mr.mergedAt.value - x.mr.createdAt.value) as real)
    && (x.mr.state == "closed" ==> x.mr.closedAt.Some? && seconds * SECOND as real == (x.mr.closedAt.value - x.mr.createdAt.value) as real)
    && (x.mr.state == "opened" ==> seconds * SECOND as real == (x.now - x.mr.createdAt.value) as real)
  }

  /** The open-duration series lists the merge requests whose dates are known, with the seconds they were open. */
  lemma OpenTimesPublished(projects: seq<string>, replies: seq<Reply>, obs: Observations)
    requires IsResult(projects, replies, obs)
    ensures var es := Filter(HasOpenTime, Entries(projects, replies, |projects|));
            && Lists(obs.openDuration, es)
            && forall i :: 0 <= i < |es| ==> SpansOpenTime(obs.openDuration[i].value, es[i].timed)
  {
    ResultLists(projects, replies, obs, OpenDuration, HasOpenTime);
    assert obs.Values(OpenDuration) == obs.openDuration;
    var es := Filter(HasOpenTime, Entries(projects, replies, |projects|));
    forall i | 0 <= i < |es|
      ensures SpansOpenTime(obs.openDuration[i].value, es[i].timed)
    {
      OpenTimeRead(obs.openDuration[i].value, es[i].timed);
    }
  }

  lemma OpenTimeRead(v: real, x: Timed)
    requires Some(v) == Sample(OpenDuration, x)
    ensures SpansOpenTime(v, x)
  {
    SecondsExact(Ended(x.mr, x.now).value - x.mr.createdAt.value);
  }

  function WasReviewed(e: Entry): bool {
    e.timed.mr.notes > 0 && e.timed.mr.createdAt.Some?
  }

  /** The estimate is a (notes + 1)-th of the time from creation to the merge, else the closing, else now. */
  ghost predicate SharesLifetime(estimate: real, x: Timed) {
    && x.mr.createdAt.Some?
    && var total := estimate * (x.mr.notes + 1) as real * SECOND as real;
       && (x.mr.mergedAt.Some? ==> total == (x.mr.mergedAt.value - x.mr.createdAt.value) as real)
       && (x.mr.mergedAt.None? && x.mr.closedAt.Some? ==> total == (x.mr.closedAt.value - x.mr.createdAt.value) as real)
       && (x.mr.mergedAt.None? && x.mr.closedAt.None? ==> total == (x.now - x.mr.createdAt.value) as real)
  }

  /** The first-review series lists the merge requests with notes and a creation date, with their share. */
  lemma ReviewTimesPublished(projects: seq<string>, replies: seq<Reply>, obs: Observations)
    requires IsResult(projects, replies, obs)
    ensures var es := Filter(WasReviewed, Entries(projects, replies, |projects|));
            && Lists(obs.timeToFirstReview, es)
            && forall i :: 0 <= i < |es| ==> SharesLifetime(obs.timeToFirstReview[i].value, es[i].timed)
  {
    ResultLists(projects, replies, obs, TimeToFirstReview, WasReviewed);
    assert obs.Values(TimeToFirstReview) == obs.timeToFirstReview;
    var es := Filter(WasReviewed, Entries(projects, replies, |projects|));
    forall i | 0 <= i < |es|
      ensures SharesLifetime(obs.timeToFirstReview[i].value, es[i].timed)
    {
      EstimateRead(obs.timeToFirstReview[i].value, es[i].timed);
    }
  }

  lemma DivideBack(a: real, n: int)
    requires n > 0
    ensures (a / n as real) * n as real == a
  {
  }

  lemma EstimateRead(v: real, x: Timed)
    requires Some(v) == Sample(TimeToFirstReview, x)
    ensures SharesLifetime(v, x)
  {
    var span := LastActivity(x.mr, x.now) - x.mr.createdAt.value;
    SecondsExact(span);
    DivideBack(Seconds(span), x.mr.notes + 1);
  }

  // ---------- Gauges and errors

  function HasStatus(branch: string, state: string): Timed -> bool {
    (x: Timed) => x.mr.targetBranch == branch && x.mr.state == state
  }

  /** How many merge requests listed for a project satisfy p. */
  ghost function CountedFor(projects: seq<string>, replies: seq<Reply>, n: nat, project: string, p: Timed -> bool): nat
    requires n <= |projects| == |replies|
  {
    if n == 0 then 0
    else
      CountedFor(projects, replies, n - 1, project, p)
      + if replies[n - 1].Listed? && projects[n - 1] == project then Count(p, replies[n - 1].mrs) else 0
  }

  lemma {:induction false} TuplesCounted(mrs: seq<Timed>, branch: string, state: string)
    ensures multiset(StatusTuples(mrs))[[branch, state]] == Count(HasStatus(branch, state), mrs)
  {
    if mrs != [] {
      var n := |mrs| - 1;
      assert mrs[..n + 1] == mrs;
      TaggedSnoc("", mrs, n);
      TuplesCounted(mrs[..n], branch, state);
      TwoLabelTuple(mrs[n].mr.targetBranch, mrs[n].mr.state, branch, state);
    }
  }

  lemma {:induction false} BatchesCounted(projects: seq<string>, replies: seq<Reply>, n: nat, project: string,
                                          branch: string, state: string)
    requires n <= |projects| == |replies|
    ensures TupleCount(StatusBatches(projects, replies, n), project, [branch, state]) ==
            CountedFor(projects, replies, n, project, HasStatus(branch, state))
  {
    if n > 0 {
      BatchesCounted(projects, replies, n - 1, project, branch, state);
      if replies[n - 1].Listed? {
        TuplesCounted(replies[n - 1].mrs, branch, state);
        TupleCountSnoc(StatusBatches(projects, replies, n - 1), Batch(projects[n - 1], StatusTuples(replies[n - 1].mrs)),
                       project, [branch, state]);
      }
    }
  }

  /** A status gauge reads as the number of the project's merge requests with that branch and state. */
  lemma StatusPublished(projects: seq<string>, replies: seq<Reply>, obs: Observations,
                        project: string, branch: string, state: string)
    requires IsResult(projects, replies, obs)
    ensures Reading(obs.status, [project] + [branch, state]) ==
            CountedFor(projects, replies, |projects|, project, HasStatus(branch, state))
  {
    GaugesRead(obs.status, StatusBatches(projects, replies, |projects|), project, [branch, state]);
    BatchesCounted(projects, replies, |projects|, project, branch, state);
  }

  function IsFailure(r: Reply): bool {
    r.Failed?
  }

  lemma {:induction false} FailuresCounted(replies: seq<Reply>, n: nat)
    requires n <= |replies|
    ensures Failures(replies, n) == Count(IsFailure, replies[..n])
  {
    if n > 0 {
      FailuresCounted(replies, n - 1);
      PrefixSnoc(replies, n - 1);
      FilterSnoc(IsFailure, replies[..n - 1], replies[n - 1]);
    }
  }

  /** The error counter is the number of listings that failed. */
  lemma ErrorsPublished(projects: seq<string>, replies: seq<Reply>, obs: Observations)
    requires IsResult(projects, replies, obs)
    ensures obs.scrapeErrors == Count(IsFailure, replies)
  {
    FailuresCounted(replies, |replies|);
    assert replies[..|replies|] == replies;
  }

  /**
   * The histograms sent for a series say exactly what was observed: each describes the observations
   * with its labels, no two share labels, and every observation has one.
   */
  lemma HistogramsPublished(hs: seq<Histogram>, values: seq<LabeledValue>, bounds: seq<real>)
    requires SendsPairs(hs, values, bounds) && TwoLabels(values)
    ensures SeriesDistinct(hs)
    ensures forall i :: 0 <= i < |hs| ==> Describes(hs[i], values, bounds)
    ensures forall v :: v in values ==> exists i :: 0 <= i < |hs| && hs[i].labels == v.labels
  {
    var order :| RangeOrder(order, PairSet(values)) && hs == Emitted(values, bounds, 2, order);
    NoDuplicateHistograms(values, bounds, order);
    forall i | 0 <= i < |hs|
      ensures Describes(hs[i], values, bounds)
    {
      var k := SentFrom(hs, values, bounds, i);
      HistogramDescribes(values, bounds, k);
    }
    forall v | v in values
      ensures exists i :: 0 <= i < |hs| && hs[i].labels == v.labels
    {
      var j :| 0 <= j < |values| && values[j] == v;
      assert Pairs(values)[j] in PairSet(values);
      var i := SentFor(hs, values, bounds, PairOf(v.labels));
      assert v.labels == [v.labels[0], v.labels[1]] == hs[i].labels;
    }
  }

  /** A scrape buckets the three durations by the configured bounds and the three counts by the default ones. */
  lemma BoundsUsed(x: Exposition, obs: Observations, bounds: seq<real>, defaults: seq<real>)
    requires Exposes(x, obs, bounds, defaults)
    ensures SendsPairs(x.timeToMerge, obs.timeToMerge, bounds)
    ensures SendsPairs(x.timeToFirstReview, obs.timeToFirstReview, bounds)
    ensures SendsPairs(x.openDuration, obs.openDuration, bounds)
    ensures SendsPairs(x.reviewCycles, obs.reviewCycles, defaults)
    ensures SendsPairs(x.changesCount, obs.changesCount, defaults)
    ensures SendsPairs(x.notesCount, obs.notesCount, defaults)
  {
    forall series: Series
      ensures SendsPairs(x.Sent(series), obs.Values(series), BoundsOf(series, bounds, defaults))
    {
    }
    assert x.Sent(TimeToMerge) == x.timeToMerge && obs.Values(TimeToMerge) == obs.timeToMerge;
    assert x.Sent(TimeToFirstReview) == x.timeToFirstReview && obs.Values(TimeToFirstReview) == obs.timeToFirstReview;
    assert x.Sent(OpenDuration) == x.openDuration && obs.Values(OpenDuration) == obs.openDuration;
    assert x.Sent(ReviewCycles) == x.reviewCycles && obs.Values(ReviewCycles) == obs.reviewCycles;
    assert x.Sent(ChangesCount) == x.changesCount && obs.Values(ChangesCount) == obs.changesCount;
    assert x.Sent(NotesCount) == x.notesCount && obs.Values(NotesCount) == obs.notesCount;
  }
}
