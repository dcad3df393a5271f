/** What one merge-request cycle guarantees about the series it exposes. */
module MergeRequestTheorems {
  import opened Prelude
  import opened Histograms
  import opened HistogramTheorems
  import opened Gauges
  import opened MergeRequests
  import Discovery

  // ---------- From series to the histograms that are sent

  lemma GroupOfSeries(series: Series, entries: seq<Entry>, e: Entry, k: Pair)
    ensures Group(Samples(series, entries + [e]), k) ==
            Group(Samples(series, entries), k) + Group(Contribution(series, e), k)
  {
    SamplesSnoc(series, entries, e);
    GroupConcat(Samples(series, entries), Contribution(series, e), k);
  }

  lemma PairsOfSeries(series: Series, entries: seq<Entry>, e: Entry)
    ensures PairSet(Samples(series, entries + [e])) == PairSet(Samples(series, entries)) + PairSet(Contribution(series, e))
  {
    SamplesSnoc(series, entries, e);
    var front, more := Samples(series, entries), Contribution(series, e);
    assert Pairs(front + more) == Pairs(front) + Pairs(more);
  }

  lemma ContributionGroup(series: Series, e: Entry, k: Pair)
    ensures Group(Contribution(series, e), k) ==
            var v := Sample(series, e.timed);
            if v.Some? && k == Pair(e.project, e.timed.mr.targetBranch) then [v.value] else []
    ensures PairSet(Contribution(series, e)) ==
            if Sample(series, e.timed).Some? then {Pair(e.project, e.timed.mr.targetBranch)} else {}
  {
    var c, v := Contribution(series, e), Sample(series, e.timed);
    if v.Some? {
      assert c[..0] == [];
      assert Pairs(c) == [Pair(e.project, e.timed.mr.targetBranch)];
    } else {
      assert Pairs(c) == [];
    }
  }

  lemma {:induction false} SamplesTwoLabels(series: Series, entries: seq<Entry>)
    ensures TwoLabels(Samples(series, entries))
  {
    if entries != [] {
      SamplesTwoLabels(series, entries[..|entries| - 1]);
    }
  }

  /** The pair a sent histogram belongs to. */
  lemma SentFrom(hs: seq<Histogram>, values: seq<LabeledValue>, bounds: seq<real>, i: nat) returns (k: Pair)
    requires SendsPairs(hs, values, bounds) && TwoLabels(values) && i < |hs|
    ensures k in PairSet(values) && hs[i] == HistogramOf(values, bounds, k) && hs[i].labels == [k.a, k.b]
  {
    var order :| RangeOrder(order, PairSet(values)) && hs == Emitted(values, bounds, 2, order);
    EmittedTotals(values, bounds, order);
    EmittedAt(values, bounds, order, i);
    k := order[i];
  }

  /** Every observed pair has a sent histogram. */
  lemma SentFor(hs: seq<Histogram>, values: seq<LabeledValue>, bounds: seq<real>, k: Pair) returns (i: nat)
    requires SendsPairs(hs, values, bounds) && TwoLabels(values) && k in PairSet(values)
    ensures i < |hs| && hs[i] == HistogramOf(values, bounds, k) && hs[i].labels == [k.a, k.b]
  {
    var order :| RangeOrder(order, PairSet(values)) && hs == Emitted(values, bounds, 2, order);
    i :| 0 <= i < |order| && order[i] == k;
    EmittedAt(values, bounds, order, i);
  }

  // ---------- One series against another

  /** Where one series has a sample the other has one that is at least as large. */
  ghost predicate Covered(small: Series, big: Series, x: Timed) {
    Sample(small, x).Some? ==> Sample(big, x).Some? && Sample(small, x).value <= Sample(big, x).value
  }

  /** Where one series has a sample the other has the same one. */
  ghost predicate Shared(small: Series, big: Series, x: Timed) {
    Sample(small, x).Some? ==> Sample(big, x) == Sample(small, x)
  }

  ghost function Above(vals: seq<real>, b: real): nat {
    |vals| - AtMost(vals, b)
  }

  lemma {:induction false} TailDominated(small: Series, big: Series, entries: seq<Entry>, k: Pair, b: real)
    requires forall e :: e in entries ==> Covered(small, big, e.timed)
    ensures Above(Group(Samples(small, entries), k), b) <= Above(Group(Samples(big, entries), k), b)
  {
    if entries != [] {
      var front, e := entries[..|entries| - 1], entries[|entries| - 1];
      assert entries == front + [e];
      TailDominated(small, big, front, k, b);
      AboveSnoc(small, front, e, k, b);
      AboveSnoc(big, front, e, k, b);
    }
  }

  lemma AboveSnoc(series: Series, front: seq<Entry>, e: Entry, k: Pair, b: real)
    ensures Above(Group(Samples(series, front + [e]), k), b) ==
            Above(Group(Samples(series, front), k), b)
            + var v := Sample(series, e.timed);
              if v.Some? && k == Pair(e.project, e.timed.mr.targetBranch) && v.value > b then 1 else 0
  {
    SizeSnoc(series, front, e, k, b);
  }

  lemma {:induction false} SharedWithin(small: Series, big: Series, entries: seq<Entry>, k: Pair, b: real)
    requires forall e :: e in entries ==> Shared(small, big, e.timed)
    ensures |Group(Samples(small, entries), k)| <= |Group(Samples(big, entries), k)|
    ensures AtMost(Group(Samples(small, entries), k), b) <= AtMost(Group(Samples(big, entries), k), b)
  {
    if entries != [] {
      var front, e := entries[..|entries| - 1], entries[|entries| - 1];
      assert entries == front + [e];
      SharedWithin(small, big, front, k, b);
      SizeSnoc(small, front, e, k, b);
      SizeSnoc(big, front, e, k, b);
    }
  }

  lemma SizeSnoc(series: Series, front: seq<Entry>, e: Entry, k: Pair, b: real)
    ensures var (before, after, v) := (Group(Samples(series, front), k), Group(Samples(series, front + [e]), k), Sample(series, e.timed));
            var mine := v.Some? && k == Pair(e.project, e.timed.mr.targetBranch);
            && |after| == |before| + (if mine then 1 else 0)
            && AtMost(after, b) == AtMost(before, b) + (if mine && v.value <= b then 1 else 0)
  {
    var before, one := Group(Samples(series, front), k), Group(Contribution(series, e), k);
    GroupOfSeries(series, front, e, k);
    ContributionGroup(series, e, k);
    AtMostConcat(before, one, b);
    AtMostSingle(one, b);
  }

  lemma AtMostSingle(vals: seq<real>, b: real)
    requires |vals| <= 1
    ensures AtMost(vals, b) == if vals != [] && vals[0] <= b then 1 else 0
  {
    if vals != [] {
      assert vals[..0] == [];
    }
  }

  lemma {:induction false} PairsWithin(small: Series, big: Series, entries: seq<Entry>)
    requires forall e :: e in entries && Sample(small, e.timed).Some? ==> Sample(big, e.timed).Some?
    ensures PairSet(Samples(small, entries)) <= PairSet(Samples(big, entries))
  {
    if entries == [] {
      assert Pairs([]) == [];
    } else {
      var front, e := entries[..|entries| - 1], entries[|entries| - 1];
      assert entries == front + [e];
      PairsWithin(small, big, front);
      var k := Pair(e.project, e.timed.mr.targetBranch);
      PairsOfSeries(small, front, e);
      PairsOfSeries(big, front, e);
      ContributionGroup(small, e, k);
      ContributionGroup(big, e, k);
    }
  }

  // ---------- Merged durations are open durations

  /** h' has the labels of h, and its count and every bucket are at least as large. */
  ghost predicate AtLeast(h': Histogram, h: Histogram, bounds: seq<real>) {
    && h'.labels == h.labels && h.count <= h'.count
    && forall b :: b in bounds ==> b in h.buckets && b in h'.buckets && h.buckets[b] <= h'.buckets[b]
  }

  lemma SharedHistograms(small: Series, big: Series, entries: seq<Entry>, hs: seq<Histogram>, hs': seq<Histogram>,
                         bounds: seq<real>, i: nat) returns (j: nat)
    requires forall e :: e in entries ==> Shared(small, big, e.timed)
    requires SendsPairs(hs, Samples(small, entries), bounds) && SendsPairs(hs', Samples(big, entries), bounds) && i < |hs|
    ensures j < |hs'| && AtLeast(hs'[j], hs[i], bounds)
  {
    SamplesTwoLabels(small, entries);
    SamplesTwoLabels(big, entries);
    PairsWithin(small, big, entries);
    var k := SentFrom(hs, Samples(small, entries), bounds, i);
    j := SentFor(hs', Samples(big, entries), bounds, k);
    SharedWithin(small, big, entries, k, 0.0);
    forall b | b in bounds
      ensures hs[i].buckets[b] <= hs'[j].buckets[b]
    {
      SharedWithin(small, big, entries, k, b);
      MulMonotone(AtMost(Group(Samples(small, entries), k), b), AtMost(Group(Samples(big, entries), k), b), multiset(bounds)[b]);
    }
  }

  lemma MergedIsShared(entries: seq<Entry>)
    ensures forall e :: e in entries ==> Shared(TimeToMerge, OpenDuration, e.timed)
  {
  }

  /** A scrape of a completed cycle sends each series over all listed merge requests. */
  lemma ResultSends(projects: seq<string>, replies: seq<Reply>, obs: Observations, x: Exposition,
                    bounds: seq<real>, defaults: seq<real>, series: Series)
    requires IsResult(projects, replies, obs) && Exposes(x, obs, bounds, defaults)
    ensures SendsPairs(x.Sent(series), Samples(series, Entries(projects, replies, |projects|)),
                       BoundsOf(series, bounds, defaults))
  {
    assert obs.Values(series) == Samples(series, Entries(projects, replies, |projects|));
  }

  /**
   * For every bucket list and every reply, each time-to-merge histogram has an open-duration
   * histogram with the same labels whose count and buckets are all at least as large.
   */
  lemma MergedWithinOpen(projects: seq<string>, replies: seq<Reply>, obs: Observations, x: Exposition,
                         bounds: seq<real>, defaults: seq<real>, i: nat) returns (j: nat)
    requires IsResult(projects, replies, obs) && Exposes(x, obs, bounds, defaults)
    requires i < |x.timeToMerge|
    ensures j < |x.openDuration| && AtLeast(x.openDuration[j], x.timeToMerge[i], bounds)
  {
    var entries := Entries(projects, replies, |projects|);
    ResultSends(projects, replies, obs, x, bounds, defaults, TimeToMerge);
    ResultSends(projects, replies, obs, x, bounds, defaults, OpenDuration);
    MergedIsShared(entries);
    j := SharedHistograms(TimeToMerge, OpenDuration, entries, x.timeToMerge, x.openDuration, bounds, i);
  }

  // ---------- Tail dominance

  /** State and timestamps agree, and the merge request does not end before it begins. */
  predicate WellFormed(x: Timed) {
    && x.mr.createdAt.Some?
    && x.mr.state in ["opened", "merged", "closed"]
    && (x.mr.state == "merged" <==> x.mr.mergedAt.Some?)
    && (x.mr.state == "closed" ==> x.mr.closedAt.Some?)
    && (x.mr.state == "opened" ==> x.mr.closedAt.None?)
    && LastActivity(x.mr, x.now) >= x.mr.createdAt.value
  }

  lemma ShareNoLarger(d: real, n: int)
    requires d >= 0.0 && n > 0
    ensures d / (n + 1) as real <= d
  {
    var q := d / (n + 1) as real;
    assert d == q * (n + 1) as real == q * n as real + q;
    assert q >= 0.0 && q * n as real >= 0.0;
  }

  lemma SecondsNonNegative(span: int)
    requires span >= 0
    ensures Seconds(span) >= 0.0
  {
  }

  lemma ReviewBeforeEnd(x: Timed)
    requires WellFormed(x)
    ensures Covered(TimeToFirstReview, OpenDuration, x)
  {
    var mr := x.mr;
    if mr.notes > 0 {
      var span := LastActivity(mr, x.now) - mr.createdAt.value;
      SecondsNonNegative(span);
      ShareNoLarger(Seconds(span), mr.notes);
      assert Ended(mr, x.now) == Some(LastActivity(mr, x.now));
    }
  }

  lemma ReviewsBeforeEnd(entries: seq<Entry>)
    requires forall e :: e in entries ==> WellFormed(e.timed)
    ensures forall e :: e in entries ==> Covered(TimeToFirstReview, OpenDuration, e.timed)
  {
    forall e | e in entries
      ensures Covered(TimeToFirstReview, OpenDuration, e.timed)
    {
      ReviewBeforeEnd(e.timed);
    }
  }

  /** For every bound, h counts no more values above it than h' does. */
  ghost predicate NoLongerTail(h: Histogram, h': Histogram, bounds: seq<real>) {
    && h'.labels == h.labels
    && forall b :: b in bounds ==> b in h.buckets && b in h'.buckets && h.count - h.buckets[b] <= h'.count - h'.buckets[b]
  }

  lemma CoveredHistograms(small: Series, big: Series, entries: seq<Entry>, hs: seq<Histogram>, hs': seq<Histogram>,
                          bounds: seq<real>, i: nat) returns (j: nat)
    requires forall e :: e in entries ==> Covered(small, big, e.timed)
    requires SendsPairs(hs, Samples(small, entries), bounds) && SendsPairs(hs', Samples(big, entries), bounds)
    requires Distinct(bounds) && i < |hs|
    ensures j < |hs'| && NoLongerTail(hs[i], hs'[j], bounds)
  {
    SamplesTwoLabels(small, entries);
    SamplesTwoLabels(big, entries);
    PairsWithin(small, big, entries);
    var k := SentFrom(hs, Samples(small, entries), bounds, i);
    j := SentFor(hs', Samples(big, entries), bounds, k);
    DistinctBoundsCumulate(Group(Samples(small, entries), k), bounds);
    DistinctBoundsCumulate(Group(Samples(big, entries), k), bounds);
    forall b | b in bounds
      ensures Above(Group(Samples(small, entries), k), b) <= Above(Group(Samples(big, entries), k), b)
    {
      TailDominated(small, big, entries, k, b);
    }
  }

  /**
   * For well-formed merge requests and distinct bounds, no bound is exceeded by more first-review
   * estimates than open durations, for any label pair, as read off the two emitted histograms.
   */
  lemma TailDominance(projects: seq<string>, replies: seq<Reply>, obs: Observations, x: Exposition,
                      bounds: seq<real>, defaults: seq<real>, i: nat) returns (j: nat)
    requires IsResult(projects, replies, obs) && Exposes(x, obs, bounds, defaults)
    requires Distinct(bounds) && i < |x.timeToFirstReview|
    requires forall e :: e in Entries(projects, replies, |projects|) ==> WellFormed(e.timed)
    ensures j < |x.openDuration| && NoLongerTail(x.timeToFirstReview[i], x.openDuration[j], bounds)
  {
    var entries := Entries(projects, replies, |projects|);
    ResultSends(projects, replies, obs, x, bounds, defaults, TimeToFirstReview);
    ResultSends(projects, replies, obs, x, bounds, defaults, OpenDuration);
    ReviewsBeforeEnd(entries);
    j := CoveredHistograms(TimeToFirstReview, OpenDuration, entries, x.timeToFirstReview, x.openDuration, bounds, i);
  }

  /** The tail of one merge request under its own label pair. */
  ghost predicate TailsOrdered(e: Entry, b: real) {
    var k := Pair(e.project, e.timed.mr.targetBranch);
    Above(Group(Samples(TimeToFirstReview, [e]), k), b) <= Above(Group(Samples(OpenDuration, [e]), k), b)
  }

  lemma SingleTail(series: Series, e: Entry, b: real)
    ensures var v := Sample(series, e.timed);
            Above(Group(Samples(series, [e]), Pair(e.project, e.timed.mr.targetBranch)), b) ==
            if v.Some? && v.value > b then 1 else 0
  {
    AboveSnoc(series, [], e, Pair(e.project, e.timed.mr.targetBranch), b);
    assert [] + [e] == [e];
  }

  /**
   * A single merge request keeps the tails in order exactly when it has no estimate or was open at
   * least as long as the estimate; so no weaker condition on the input than Covered would do.
   */
  lemma TailsOrderedIffCovered(e: Entry)
    ensures Covered(TimeToFirstReview, OpenDuration, e.timed) <==> forall b :: TailsOrdered(e, b)
  {
    forall b
      ensures TailsOrdered(e, b) <==>
              (Sample(TimeToFirstReview, e.timed).Some? && Sample(TimeToFirstReview, e.timed).value > b ==>
                 Sample(OpenDuration, e.timed).Some? && Sample(OpenDuration, e.timed).value > b)
    {
      SingleTail(TimeToFirstReview, e, b);
      SingleTail(OpenDuration, e, b);
    }
    if !Covered(TimeToFirstReview, OpenDuration, e.timed) {
      var (first, open) := (Sample(TimeToFirstReview, e.timed), Sample(OpenDuration, e.timed));
      assert !TailsOrdered(e, if open.Some? then open.value else first.value - 1.0);
    }
  }

  // ---------- Conservation

  /** How many merge requests were listed for a project. */
  ghost function ListedFor(projects: seq<string>, replies: seq<Reply>, n: nat, project: string): nat
    requires n <= |projects| == |replies|
  {
    if n == 0 then 0
    else
      ListedFor(projects, replies, n - 1, project)
      + if replies[n - 1].Listed? && projects[n - 1] == project then |replies[n - 1].mrs| else 0
  }

  lemma {:induction false} StatusTuplesListed(projects: seq<string>, replies: seq<Reply>, n: nat, project: string)
    requires n <= |projects| == |replies|
    ensures ProjectTuples(StatusBatches(projects, replies, n), project) == ListedFor(projects, replies, n, project)
  {
    if n > 0 {
      StatusTuplesListed(projects, replies, n - 1, project);
      if replies[n - 1].Listed? {
        var front, last := StatusBatches(projects, replies, n - 1), Batch(projects[n - 1], StatusTuples(replies[n - 1].mrs));
        assert (front + [last])[..|front|] == front;
      }
    }
  }

  /** A project's status gauges add up to its merge requests. */
  lemma StatusConserves(projects: seq<string>, replies: seq<Reply>, obs: Observations, project: string)
    requires IsResult(projects, replies, obs)
    ensures ProjectSum(obs.status, project) == ListedFor(projects, replies, |projects|, project)
  {
    GaugesConserve(obs.status, StatusBatches(projects, replies, |projects|), project);
    StatusTuplesListed(projects, replies, |projects|, project);
  }

  lemma {:induction false} MergedCount(mrs: seq<Timed>, branch: string)
    ensures multiset(StatusTuples(mrs))[[branch, "merged"]] == multiset(MergedBranches(mrs))[branch]
  {
    if mrs != [] {
      var n := |mrs| - 1;
      assert mrs[..n + 1] == mrs;
      TaggedSnoc("", mrs, n);
      MergedCount(mrs[..n], branch);
      TwoLabelTuple(mrs[n].mr.targetBranch, mrs[n].mr.state, branch, "merged");
    }
  }

  lemma MergedTuples(mrs: seq<Timed>, branch: string)
    ensures multiset(StatusTuples(mrs))[[branch, "merged"]] == multiset(Singles(MergedBranches(mrs)))[[branch]]
  {
    MergedCount(mrs, branch);
    SinglesCount(MergedBranches(mrs), branch);
  }

  lemma {:induction false} ThroughputCounts(projects: seq<string>, replies: seq<Reply>, n: nat, project: string,
                                            merged: seq<string>, single: seq<string>)
    requires n <= |projects| == |replies|
    requires |single| == 1 && merged == [single[0], "merged"]
    ensures TupleCount(StatusBatches(projects, replies, n), project, merged) ==
            TupleCount(ThroughputBatches(projects, replies, n), project, single)
  {
    if n > 0 {
      ThroughputCounts(projects, replies, n - 1, project, merged, single);
      if replies[n - 1].Listed? {
        var p, mrs := projects[n - 1], replies[n - 1].mrs;
        assert single == [single[0]];
        MergedTuples(mrs, single[0]);
        TupleCountSnoc(StatusBatches(projects, replies, n - 1), Batch(p, StatusTuples(mrs)), project, merged);
        TupleCountSnoc(ThroughputBatches(projects, replies, n - 1), Batch(p, Singles(MergedBranches(mrs))), project, single);
      }
    }
  }

  /** A branch's throughput is its merged status count, and is emitted exactly when that is positive. */
  lemma ThroughputIsMergedStatus(projects: seq<string>, replies: seq<Reply>, obs: Observations, project: string, branch: string)
    requires IsResult(projects, replies, obs)
    ensures var (read, merged) := (Reading(obs.throughput, [project] + [branch]), Reading(obs.status, [project] + [branch, "merged"]));
            && read == merged
            && (Present(obs.throughput, [project] + [branch]) <==> merged > 0)
            && (Present(obs.status, [project] + [branch, "merged"]) <==> merged > 0)
  {
    var n := |projects|;
    ThroughputCounts(projects, replies, n, project, [branch, "merged"], [branch]);
    GaugesRead(obs.throughput, ThroughputBatches(projects, replies, n), project, [branch]);
    GaugesRead(obs.status, StatusBatches(projects, replies, n), project, [branch, "merged"]);
    GaugesPresent(obs.throughput, ThroughputBatches(projects, replies, n), project, [branch]);
    GaugesPresent(obs.status, StatusBatches(projects, replies, n), project, [branch, "merged"]);
  }

  /** Every histogram has a counterpart with the same labels that counts at least as many observations. */
  ghost predicate Nested(hs: seq<Histogram>, hs': seq<Histogram>) {
    forall i :: 0 <= i < |hs| ==> HasLarger(hs', hs[i])
  }

  ghost predicate HasLarger(hs: seq<Histogram>, h: Histogram) {
    exists j :: 0 <= j < |hs| && CountsAtLeast(hs[j], h)
  }

  predicate CountsAtLeast(h': Histogram, h: Histogram) {
    h'.labels == h.labels && h'.count >= h.count
  }

  lemma {:induction false} GroupsNest(small: Series, big: Series, entries: seq<Entry>, k: Pair)
    requires forall e :: e in entries && Sample(small, e.timed).Some? ==> Sample(big, e.timed).Some?
    ensures |Group(Samples(small, entries), k)| <= |Group(Samples(big, entries), k)|
  {
    if entries != [] {
      var front, e := entries[..|entries| - 1], entries[|entries| - 1];
      assert entries == front + [e];
      GroupsNest(small, big, front, k);
      SizeSnoc(small, front, e, k, 0.0);
      SizeSnoc(big, front, e, k, 0.0);
    }
  }

  lemma SentNested(small: Series, big: Series, entries: seq<Entry>, hs: seq<Histogram>, bounds: seq<real>,
                   hs': seq<Histogram>, bounds': seq<real>)
    requires forall e :: e in entries && Sample(small, e.timed).Some? ==> Sample(big, e.timed).Some?
    requires SendsPairs(hs, Samples(small, entries), bounds) && SendsPairs(hs', Samples(big, entries), bounds')
    ensures Nested(hs, hs')
  {
    SamplesTwoLabels(small, entries);
    SamplesTwoLabels(big, entries);
    PairsWithin(small, big, entries);
    forall i | 0 <= i < |hs|
      ensures HasLarger(hs', hs[i])
    {
      var k := SentFrom(hs, Samples(small, entries), bounds, i);
      var j := SentFor(hs', Samples(big, entries), bounds', k);
      GroupsNest(small, big, entries, k);
      assert CountsAtLeast(hs'[j], hs[i]);
    }
  }

  lemma ReviewSamplesNest(entries: seq<Entry>)
    ensures forall e :: e in entries && Sample(TimeToFirstReview, e.timed).Some? ==> Sample(ReviewCycles, e.timed).Some?
    ensures forall e :: e in entries && Sample(ReviewCycles, e.timed).Some? ==> Sample(NotesCount, e.timed).Some?
  {
  }

  /**
   * For every project and label pair, each first-review histogram has a review-cycle histogram that
   * counts at least as many merge requests, and that one a note-count histogram.
   */
  lemma ReviewSeriesNest(projects: seq<string>, replies: seq<Reply>, obs: Observations, x: Exposition,
                         bounds: seq<real>, defaults: seq<real>)
    requires IsResult(projects, replies, obs) && Exposes(x, obs, bounds, defaults)
    ensures Nested(x.timeToFirstReview, x.reviewCycles)
    ensures Nested(x.reviewCycles, x.notesCount)
  {
    var entries := Entries(projects, replies, |projects|);
    ResultSends(projects, replies, obs, x, bounds, defaults, TimeToFirstReview);
    ResultSends(projects, replies, obs, x, bounds, defaults, ReviewCycles);
    ResultSends(projects, replies, obs, x, bounds, defaults, NotesCount);
    ReviewSamplesNest(entries);
    SentNested(TimeToFirstReview, ReviewCycles, entries, x.timeToFirstReview, bounds, x.reviewCycles, defaults);
    SentNested(ReviewCycles, NotesCount, entries, x.reviewCycles, defaults, x.notesCount, defaults);
  }

  lemma ResultSeries(projects: seq<string>, replies: seq<Reply>, obs: Observations)
    requires IsResult(projects, replies, obs)
    ensures var entries := Entries(projects, replies, |projects|);
            && obs.timeToFirstReview == Samples(TimeToFirstReview, entries)
            && obs.reviewCycles == Samples(ReviewCycles, entries)
            && obs.notesCount == Samples(NotesCount, entries)
  {
    var entries := Entries(projects, replies, |projects|);
    assert obs.Values(TimeToFirstReview) == Samples(TimeToFirstReview, entries);
    assert obs.Values(ReviewCycles) == Samples(ReviewCycles, entries);
    assert obs.Values(NotesCount) == Samples(NotesCount, entries);
  }

  /** How many observations carry a project's label. */
  ghost function ObservedFor(values: seq<LabeledValue>, project: string): nat {
    if values == [] then 0
    else
      var last := values[|values| - 1];
      ObservedFor(values[..|values| - 1], project) + if PairOf(last.labels).a == project then 1 else 0
  }

  lemma {:induction false} ObservedForSnoc(series: Series, front: seq<Entry>, e: Entry, project: string)
    ensures ObservedFor(Samples(series, front + [e]), project) ==
            ObservedFor(Samples(series, front), project)
            + if Sample(series, e.timed).Some? && e.project == project then 1 else 0
  {
    SamplesSnoc(series, front, e);
    var before, one := Samples(series, front), Contribution(series, e);
    if one != [] {
      assert (before + one)[..|before|] == before;
    } else {
      assert before + one == before;
    }
  }

  lemma {:induction false} ObservedNest(small: Series, big: Series, entries: seq<Entry>, project: string)
    requires forall e :: e in entries && Sample(small, e.timed).Some? ==> Sample(big, e.timed).Some?
    ensures ObservedFor(Samples(small, entries), project) <= ObservedFor(Samples(big, entries), project)
  {
    if entries != [] {
      var front, e := entries[..|entries| - 1], entries[|entries| - 1];
      assert entries == front + [e];
      ObservedNest(small, big, front, project);
      ObservedForSnoc(small, front, e, project);
      ObservedForSnoc(big, front, e, project);
    }
  }

  /** How many entries belong to a project. */
  ghost function EntriesFor(entries: seq<Entry>, project: string): nat {
    if entries == [] then 0
    else EntriesFor(entries[..|entries| - 1], project) + if entries[|entries| - 1].project == project then 1 else 0
  }

  lemma {:induction false} NotesOfEntries(entries: seq<Entry>, project: string)
    ensures ObservedFor(Samples(NotesCount, entries), project) == EntriesFor(entries, project)
  {
    if entries != [] {
      var front, e := entries[..|entries| - 1], entries[|entries| - 1];
      assert entries == front + [e];
      NotesOfEntries(front, project);
      ObservedForSnoc(NotesCount, front, e, project);
    }
  }

  lemma {:induction false} EntriesForConcat(a: seq<Entry>, b: seq<Entry>, project: string)
    ensures EntriesFor(a + b, project) == EntriesFor(a, project) + EntriesFor(b, project)
  {
    if b == [] {
      assert a + b == a;
    } else {
      EntriesForConcat(a, b[..|b| - 1], project);
      assert (a + b)[..|a + b| - 1] == a + b[..|b| - 1];
    }
  }

  lemma {:induction false} EntriesForTagged(from: string, mrs: seq<Timed>, project: string)
    ensures EntriesFor(Tagged(from, mrs), project) == if from == project then |mrs| else 0
  {
    if mrs != [] {
      var es, rest := Tagged(from, mrs), mrs[..|mrs| - 1];
      EntriesForTagged(from, rest, project);
      assert es[..|es| - 1] == Tagged(from, rest);
    }
  }

  lemma {:induction false} EntriesOfProject(projects: seq<string>, replies: seq<Reply>, n: nat, project: string)
    requires n <= |projects| == |replies|
    ensures EntriesFor(Entries(projects, replies, n), project) == ListedFor(projects, replies, n, project)
  {
    if n > 0 {
      EntriesOfProject(projects, replies, n - 1, project);
      if replies[n - 1].Listed? {
        EntriesForConcat(Entries(projects, replies, n - 1), Tagged(projects[n - 1], replies[n - 1].mrs), project);
        EntriesForTagged(projects[n - 1], replies[n - 1].mrs, project);
      }
    }
  }

  lemma ReviewsOfEntries(entries: seq<Entry>, project: string)
    ensures ObservedFor(Samples(TimeToFirstReview, entries), project) <= ObservedFor(Samples(ReviewCycles, entries), project)
    ensures ObservedFor(Samples(ReviewCycles, entries), project) <= ObservedFor(Samples(NotesCount, entries), project)
    ensures ObservedFor(Samples(NotesCount, entries), project) == EntriesFor(entries, project)
  {
    ObservedNest(TimeToFirstReview, ReviewCycles, entries, project);
    ObservedNest(ReviewCycles, NotesCount, entries, project);
    NotesOfEntries(entries, project);
  }

  /** Per project: first-review estimates are no more than review cycles, these no more than its merge requests. */
  lemma ReviewsPerProject(projects: seq<string>, replies: seq<Reply>, obs: Observations, project: string)
    requires IsResult(projects, replies, obs)
    ensures ObservedFor(obs.timeToFirstReview, project) <= ObservedFor(obs.reviewCycles, project)
    ensures ObservedFor(obs.reviewCycles, project) <= ObservedFor(obs.notesCount, project)
    ensures ObservedFor(obs.notesCount, project) == ListedFor(projects, replies, |projects|, project)
  {
    ResultSeries(projects, replies, obs);
    ReviewsOfEntries(Entries(projects, replies, |projects|), project);
    EntriesOfProject(projects, replies, |projects|, project);
  }

  /** The least integer that is no smaller. */
  function Ceil(x: real): (n: int)
    ensures (n - 1) as real < x <= n as real
  {
    -(-x).Floor
  }

  function HalveUp(notes: LabeledValue): seq<LabeledValue> {
    if notes.value > 0.0 then [LabeledValue(notes.labels, Ceil(notes.value / 2.0) as real)] else []
  }

  /** Half of every positive note count, rounded up, under the same labels and in the same order. */
  ghost function HalvedUp(notes: seq<LabeledValue>): seq<LabeledValue> {
    if notes == [] then [] else HalvedUp(notes[..|notes| - 1]) + HalveUp(notes[|notes| - 1])
  }

  lemma RoundedUp(n: int)
    requires n > 0
    ensures Ceil(n as real / 2.0) == (n + 1) / 2
  {
    var c := (n + 1) / 2;
    assert 2 * c - 1 <= n <= 2 * c;
  }

  lemma HalvedUpSnoc(notes: seq<LabeledValue>, one: LabeledValue)
    ensures HalvedUp(notes + [one]) == HalvedUp(notes) + HalveUp(one)
  {
    assert (notes + [one])[..|notes|] == notes;
  }

  /** One merge request contributes its cycles exactly as its note count is halved. */
  lemma CyclesOfOne(e: Entry) returns (one: LabeledValue)
    ensures Contribution(NotesCount, e) == [one] && Contribution(ReviewCycles, e) == HalveUp(one)
  {
    one := LabeledValue([e.project, e.timed.mr.targetBranch], e.timed.mr.notes as real);
    if e.timed.mr.notes > 0 {
      RoundedUp(e.timed.mr.notes);
    }
  }

  lemma {:induction false} CyclesOfEntries(entries: seq<Entry>)
    ensures Samples(ReviewCycles, entries) == HalvedUp(Samples(NotesCount, entries))
  {
    if entries != [] {
      var front, e := entries[..|entries| - 1], entries[|entries| - 1];
      assert entries == front + [e];
      CyclesOfEntries(front);
      SamplesSnoc(ReviewCycles, front, e);
      SamplesSnoc(NotesCount, front, e);
      var one := CyclesOfOne(e);
      HalvedUpSnoc(Samples(NotesCount, front), one);
    }
  }

  /** The published review cycles are the published note counts, the zeros left out and the rest halved, rounding up. */
  lemma CyclesAreHalvedNotes(projects: seq<string>, replies: seq<Reply>, obs: Observations)
    requires IsResult(projects, replies, obs)
    ensures obs.reviewCycles == HalvedUp(obs.notesCount)
  {
    var entries := Entries(projects, replies, |projects|);
    ResultSeries(projects, replies, obs);
    CyclesOfEntries(entries);
  }

  // ---------- No duplicate series, end to end

  lemma {:induction false} StatusProjects(projects: seq<string>, replies: seq<Reply>, n: nat)
    requires n <= |projects| == |replies| && Distinct(projects)
    ensures BatchesOf(StatusBatches(projects, replies, n), projects, n)
  {
    if n > 0 {
      StatusProjects(projects, replies, n - 1);
      BatchesOfNext(StatusBatches(projects, replies, n - 1), projects, n,
                    Batch(projects[n - 1], if replies[n - 1].Listed? then StatusTuples(replies[n - 1].mrs) else []));
    }
  }

  lemma {:induction false} ThroughputProjects(projects: seq<string>, replies: seq<Reply>, n: nat)
    requires n <= |projects| == |replies| && Distinct(projects)
    ensures BatchesOf(ThroughputBatches(projects, replies, n), projects, n)
  {
    if n > 0 {
      ThroughputProjects(projects, replies, n - 1);
      BatchesOfNext(ThroughputBatches(projects, replies, n - 1), projects, n,
                    Batch(projects[n - 1], if replies[n - 1].Listed? then Singles(MergedBranches(replies[n - 1].mrs)) else []));
    }
  }

  lemma SentDistinct(hs: seq<Histogram>, series: Series, entries: seq<Entry>, bounds: seq<real>)
    requires SendsPairs(hs, Samples(series, entries), bounds)
    ensures SeriesDistinct(hs)
  {
    var values := Samples(series, entries);
    SamplesTwoLabels(series, entries);
    var order :| RangeOrder(order, PairSet(values)) && hs == Emitted(values, bounds, 2, order);
    NoDuplicateHistograms(values, bounds, order);
  }

  lemma HistogramsDistinct(projects: seq<string>, replies: seq<Reply>, obs: Observations, x: Exposition,
                           bounds: seq<real>, defaults: seq<real>, series: Series)
    requires IsResult(projects, replies, obs) && Exposes(x, obs, bounds, defaults)
    ensures SeriesDistinct(x.Sent(series))
  {
    ResultSends(projects, replies, obs, x, bounds, defaults, series);
    SentDistinct(x.Sent(series), series, Entries(projects, replies, |projects|),
                 BoundsOf(series, bounds, defaults));
  }

  /** No descriptor of the scrape carries the same labels twice. */
  ghost predicate NoDuplicates(x: Exposition) {
    && LabelsDistinct(x.status) && LabelsDistinct(x.throughput)
    && forall series :: SeriesDistinct(x.Sent(series))
  }

  lemma GaugesDistinct(projects: seq<string>, replies: seq<Reply>, obs: Observations)
    requires Distinct(projects) && IsResult(projects, replies, obs)
    ensures LabelsDistinct(obs.status) && LabelsDistinct(obs.throughput)
  {
    var n := |projects|;
    StatusProjects(projects, replies, n);
    ThroughputProjects(projects, replies, n);
    NoDuplicateSeries(obs.status, StatusBatches(projects, replies, n));
    NoDuplicateSeries(obs.throughput, ThroughputBatches(projects, replies, n));
  }

  /** In every scrape of every cycle over distinct projects, no descriptor carries the same labels twice. */
  lemma ScrapeHasNoDuplicates(projects: seq<string>, replies: seq<Reply>, obs: Observations, x: Exposition,
                              bounds: seq<real>, defaults: seq<real>)
    requires Distinct(projects)
    requires IsResult(projects, replies, obs) && Exposes(x, obs, bounds, defaults)
    ensures NoDuplicates(x)
  {
    GaugesDistinct(projects, replies, obs);
    forall series
      ensures SeriesDistinct(x.Sent(series))
    {
      HistogramsDistinct(projects, replies, obs, x, bounds, defaults, series);
    }
  }

  /** So with the projects that discovery returns there are no duplicate series, whatever it was given. */
  lemma DiscoveredScrapeHasNoDuplicates(input: seq<string>, replies: seq<Reply>, obs: Observations, x: Exposition,
                                        bounds: seq<real>, defaults: seq<real>)
    requires IsResult(Discovery.Dedupe(input), replies, obs) && Exposes(x, obs, bounds, defaults)
    ensures NoDuplicates(x)
  {
    Discovery.DedupeFirstOccurrences(input);
    ScrapeHasNoDuplicates(Discovery.Dedupe(input), replies, obs, x, bounds, defaults);
  }
}
