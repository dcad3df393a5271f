/** What emitHistograms guarantees about the histograms of one descriptor, in every map order. */
module HistogramTheorems {
  import opened Prelude
  import opened Tally
  import opened Histograms

  // ---------- Groups partition the observations

  ghost function CountTotal(hs: seq<Histogram>): nat {
    if hs == [] then 0 else CountTotal(hs[..|hs| - 1]) + hs[|hs| - 1].count
  }

  ghost function SumTotal(hs: seq<Histogram>): real {
    if hs == [] then 0.0 else SumTotal(hs[..|hs| - 1]) + hs[|hs| - 1].sum
  }

  ghost function ValueTotal(values: seq<LabeledValue>): real {
    if values == [] then 0.0 else ValueTotal(values[..|values| - 1]) + values[|values| - 1].value
  }

  /** The part of ValueTotal observed under the listed pairs. */
  ghost function ValueWithin(values: seq<LabeledValue>, order: seq<Pair>): real {
    if values == [] then 0.0
    else
      var last := values[|values| - 1];
      ValueWithin(values[..|values| - 1], order) + if PairOf(last.labels) in order then last.value else 0.0
  }

  lemma {:induction false} GroupSize(values: seq<LabeledValue>, k: Pair)
    ensures |Group(values, k)| == multiset(Pairs(values))[k]
  {
    if values != [] {
      var front, last := values[..|values| - 1], values[|values| - 1];
      assert values == front + [last];
      PairSetSnoc(front, last);
      GroupSize(front, k);
    }
  }

  lemma {:induction false} ValueWithinSnoc(values: seq<LabeledValue>, order: seq<Pair>, k: Pair)
    requires k !in order
    ensures ValueWithin(values, order + [k]) == ValueWithin(values, order) + Sum(Group(values, k))
  {
    if values != [] {
      var front, last := values[..|values| - 1], values[|values| - 1];
      ValueWithinSnoc(front, order, k);
      assert PairOf(last.labels) in order + [k] <==> PairOf(last.labels) in order || PairOf(last.labels) == k;
      assert Sum(Group(values, k)) == Sum(Group(front, k)) + if PairOf(last.labels) == k then last.value else 0.0 by {
        SumSnoc(Group(front, k), last.value);
        assert Group(front, k) + [] == Group(front, k);
      }
    }
  }

  lemma {:induction false} ValueWithinAll(values: seq<LabeledValue>, order: seq<Pair>)
    requires forall v :: v in values ==> PairOf(v.labels) in order
    ensures ValueWithin(values, order) == ValueTotal(values)
  {
    if values != [] {
      ValueWithinAll(values[..|values| - 1], order);
    }
  }

  lemma {:induction false} ValueWithinNone(values: seq<LabeledValue>)
    ensures ValueWithin(values, []) == 0.0
  {
    if values != [] {
      ValueWithinNone(values[..|values| - 1]);
    }
  }

  /** Every observation carries exactly the descriptor's two labels. */
  ghost predicate TwoLabels(values: seq<LabeledValue>) {
    forall i :: 0 <= i < |values| ==> |values[i].labels| == 2
  }

  lemma {:induction false} PairLabels(values: seq<LabeledValue>, k: Pair)
    requires TwoLabels(values) && k in PairSet(values)
    ensures GroupLabels(values, k) == [k.a, k.b]
  {
    var front, last := values[..|values| - 1], values[|values| - 1];
    assert values == front + [last];
    PairSetSnoc(front, last);
    if PairOf(last.labels) != k {
      PairLabels(front, k);
    } else {
      assert last.labels == [last.labels[0], last.labels[1]];
    }
  }

  lemma {:induction false} EmittedTotals(values: seq<LabeledValue>, bounds: seq<real>, order: seq<Pair>)
    requires TwoLabels(values) && Distinct(order)
    requires forall k :: k in order ==> k in PairSet(values)
    ensures var hs := Emitted(values, bounds, 2, order);
            && |hs| == |order|
            && CountTotal(hs) == Total(Pairs(values), order)
            && SumTotal(hs) == ValueWithin(values, order)
  {
    if order == [] {
      ValueWithinNone(values);
    } else {
      var front, k := order[..|order| - 1], order[|order| - 1];
      assert order == front + [k];
      EmittedTotals(values, bounds, front);
      EmittedSnoc(values, bounds, 2, front, k);
      PairLabels(values, k);
      GroupSize(values, k);
      ValueWithinSnoc(values, front, k);
      TotalsSnoc(Emitted(values, bounds, 2, front), HistogramOf(values, bounds, k));
    }
  }

  lemma TotalsSnoc(hs: seq<Histogram>, h: Histogram)
    ensures CountTotal(hs + [h]) == CountTotal(hs) + h.count
    ensures SumTotal(hs + [h]) == SumTotal(hs) + h.sum
  {
    assert (hs + [h])[..|hs|] == hs;
  }

  /** Counts add up to the number of observations and sums to their total: nothing is lost or counted twice. */
  lemma GroupsPartition(values: seq<LabeledValue>, bounds: seq<real>, order: seq<Pair>)
    requires TwoLabels(values) && RangeOrder(order, PairSet(values))
    ensures CountTotal(Emitted(values, bounds, 2, order)) == |values|
    ensures SumTotal(Emitted(values, bounds, 2, order)) == ValueTotal(values)
  {
    EmittedTotals(values, bounds, order);
    TotalCovers(Pairs(values), order);
    forall v | v in values
      ensures PairOf(v.labels) in order
    {
      var i :| 0 <= i < |values| && values[i] == v;
      assert Pairs(values)[i] in PairSet(values);
    }
    ValueWithinAll(values, order);
  }

  // ---------- One histogram per label pair

  /** Exactly one histogram is sent for every observed pair, with that pair as its labels. */
  lemma {:induction false} EmittedAt(values: seq<LabeledValue>, bounds: seq<real>, order: seq<Pair>, i: nat)
    requires TwoLabels(values) && i < |order| && Distinct(order)
    requires forall k :: k in order ==> k in PairSet(values)
    ensures var hs := Emitted(values, bounds, 2, order);
            && |hs| == |order|
            && hs[i] == HistogramOf(values, bounds, order[i])
            && hs[i].labels == [order[i].a, order[i].b]
  {
    var front, k := order[..|order| - 1], order[|order| - 1];
    assert order == front + [k];
    EmittedTotals(values, bounds, front);
    EmittedSnoc(values, bounds, 2, front, k);
    PairLabels(values, k);
    if i < |front| {
      EmittedAt(values, bounds, front, i);
      PairLabels(values, order[i]);
    }
  }

  ghost predicate SeriesDistinct(hs: seq<Histogram>) {
    forall i, j :: 0 <= i < j < |hs| ==> hs[i].labels != hs[j].labels
  }

  lemma NoDuplicateHistograms(values: seq<LabeledValue>, bounds: seq<real>, order: seq<Pair>)
    requires TwoLabels(values) && RangeOrder(order, PairSet(values))
    ensures SeriesDistinct(Emitted(values, bounds, 2, order))
  {
    var hs := Emitted(values, bounds, 2, order);
    if order != [] {
      EmittedAt(values, bounds, order, 0);
    }
    forall i, j | 0 <= i < j < |hs|
      ensures hs[i].labels != hs[j].labels
    {
      EmittedAt(values, bounds, order, i);
      EmittedAt(values, bounds, order, j);
      assert order[i] != order[j];
      assert hs[i].labels[0] == order[i].a && hs[i].labels[1] == order[i].b;
    }
  }

  /** Whatever the number of labels: exactly the visited pairs whose last labels match the descriptor are sent. */
  lemma {:induction false} EmittedMatch(values: seq<LabeledValue>, bounds: seq<real>, arity: nat, order: seq<Pair>, h: Histogram)
    ensures h in Emitted(values, bounds, arity, order) <==>
              exists k :: k in order && |GroupLabels(values, k)| == arity && h == HistogramOf(values, bounds, k)
  {
    if order != [] {
      var front, last := order[..|order| - 1], order[|order| - 1];
      assert order == front + [last];
      EmittedMatch(values, bounds, arity, front, h);
    }
  }

  function OfPair(k: Pair): LabeledValue -> bool {
    (v: LabeledValue) => PairOf(v.labels) == k
  }

  /** A pair is sent with the labels of its last observation. */
  lemma {:induction false} LastLabels(values: seq<LabeledValue>, k: Pair)
    ensures var mine := Filter(OfPair(k), values);
            GroupLabels(values, k) == if mine == [] then [] else mine[|mine| - 1].labels
  {
    if values != [] {
      LastLabels(values[..|values| - 1], k);
    }
  }

  // ---------- What a histogram says, told from the observations

  function With(labels: seq<string>): LabeledValue -> bool {
    (v: LabeledValue) => v.labels == labels
  }

  function UpTo(labels: seq<string>, bound: real): LabeledValue -> bool {
    (v: LabeledValue) => v.labels == labels && v.value <= bound
  }

  function ValueOf(v: LabeledValue): real {
    v.value
  }

  /**
   * h counts and sums the observations with its labels, and every bucket holds as many of them as are
   * at most its bound, times the occurrences of the bound in the list.
   */
  ghost predicate Describes(h: Histogram, values: seq<LabeledValue>, bounds: seq<real>) {
    && h.count == Count(With(h.labels), values)
    && h.sum == RealSum(ValueOf, Filter(With(h.labels), values))
    && (forall b :: b in h.buckets <==> b in bounds)
    && (forall b :: b in h.buckets ==> h.buckets[b] == multiset(bounds)[b] * Count(UpTo(h.labels, b), values))
  }

  lemma LabelsMatch(v: LabeledValue, k: Pair)
    requires |v.labels| == 2
    ensures With([k.a, k.b])(v) <==> PairOf(v.labels) == k
  {
    assert v.labels == [v.labels[0], v.labels[1]];
  }

  lemma FilteredSnoc(values: seq<LabeledValue>, v: LabeledValue, labels: seq<string>, bound: real)
    ensures var mine := With(labels)(v);
            && Count(With(labels), values + [v]) == Count(With(labels), values) + (if mine then 1 else 0)
            && RealSum(ValueOf, Filter(With(labels), values + [v])) ==
               RealSum(ValueOf, Filter(With(labels), values)) + (if mine then v.value else 0.0)
            && Count(UpTo(labels, bound), values + [v]) ==
               Count(UpTo(labels, bound), values) + (if mine && v.value <= bound then 1 else 0)
  {
    FilterSnoc(With(labels), values, v);
    FilterSnoc(UpTo(labels, bound), values, v);
    RealSumSnoc(ValueOf, Filter(With(labels), values), v);
  }

  lemma GroupStatisticsSnoc(values: seq<LabeledValue>, v: LabeledValue, k: Pair, bound: real)
    ensures var (before, after, mine) := (Group(values, k), Group(values + [v], k), PairOf(v.labels) == k);
            && |after| == |before| + (if mine then 1 else 0)
            && Sum(after) == Sum(before) + (if mine then v.value else 0.0)
            && AtMost(after, bound) == AtMost(before, bound) + (if mine && v.value <= bound then 1 else 0)
  {
    GroupSnoc(values, v, k);
    SumSnoc(Group(values, k), v.value);
    AtMostSnoc(Group(values, k), v.value, bound);
  }

  lemma {:induction false} GroupRead(values: seq<LabeledValue>, k: Pair, bound: real)
    requires TwoLabels(values)
    ensures |Group(values, k)| == Count(With([k.a, k.b]), values)
    ensures Sum(Group(values, k)) == RealSum(ValueOf, Filter(With([k.a, k.b]), values))
    ensures AtMost(Group(values, k), bound) == Count(UpTo([k.a, k.b], bound), values)
  {
    if values != [] {
      var front, last := values[..|values| - 1], values[|values| - 1];
      assert values == front + [last];
      GroupRead(front, k, bound);
      LabelsMatch(last, k);
      FilteredSnoc(front, last, [k.a, k.b], bound);
      GroupStatisticsSnoc(front, last, k, bound);
    }
  }

  lemma AtMostSnoc(vals: seq<real>, v: real, bound: real)
    ensures AtMost(vals + [v], bound) == AtMost(vals, bound) + if v <= bound then 1 else 0
  {
    assert (vals + [v])[..|vals|] == vals;
  }

  lemma HistogramDescribes(values: seq<LabeledValue>, bounds: seq<real>, k: Pair)
    requires TwoLabels(values) && k in PairSet(values)
    ensures Describes(HistogramOf(values, bounds, k), values, bounds)
  {
    PairLabels(values, k);
    GroupRead(values, k, 0.0);
    var h := HistogramOf(values, bounds, k);
    forall b | b in h.buckets
      ensures h.buckets[b] == multiset(bounds)[b] * Count(UpTo(h.labels, b), values)
    {
      GroupRead(values, k, b);
    }
  }

  // ---------- Additive over concatenation, blind to order

  lemma {:induction false} GroupConcat(xs: seq<LabeledValue>, ys: seq<LabeledValue>, k: Pair)
    ensures Group(xs + ys, k) == Group(xs, k) + Group(ys, k)
  {
    if ys == [] {
      assert xs + ys == xs;
    } else {
      var front, last := ys[..|ys| - 1], ys[|ys| - 1];
      var mine := if PairOf(last.labels) == k then [last.value] else [];
      assert Group(xs + ys, k) == Group(xs + front, k) + mine by {
        assert (xs + ys)[..|xs + ys| - 1] == xs + front;
      }
      assert Group(ys, k) == Group(front, k) + mine;
      GroupConcat(xs, front, k);
    }
  }

  lemma {:induction false} SumConcat(a: seq<real>, b: seq<real>)
    ensures Sum(a + b) == Sum(a) + Sum(b)
  {
    if b == [] {
      assert a + b == a;
    } else {
      SumConcat(a, b[..|b| - 1]);
      assert (a + b)[..|a + b| - 1] == a + b[..|b| - 1];
    }
  }

  lemma {:induction false} AtMostConcat(a: seq<real>, b: seq<real>, bound: real)
    ensures AtMost(a + b, bound) == AtMost(a, bound) + AtMost(b, bound)
  {
    if b == [] {
      assert a + b == a;
    } else {
      AtMostConcat(a, b[..|b| - 1], bound);
      assert (a + b)[..|a + b| - 1] == a + b[..|b| - 1];
    }
  }

  /** The histogram of a pair over two batches is the sum of its histograms over each. */
  lemma HistogramsAdd(xs: seq<LabeledValue>, ys: seq<LabeledValue>, bounds: seq<real>, k: Pair)
    ensures var (h, hx, hy) := (HistogramOf(xs + ys, bounds, k), HistogramOf(xs, bounds, k), HistogramOf(ys, bounds, k));
            && h.count == hx.count + hy.count
            && h.sum == hx.sum + hy.sum
            && (forall b :: b in bounds ==> h.buckets[b] == hx.buckets[b] + hy.buckets[b])
  {
    GroupConcat(xs, ys, k);
    SumConcat(Group(xs, k), Group(ys, k));
    BucketsAdd(Group(xs, k), Group(ys, k), bounds);
  }

  lemma BucketsAdd(a: seq<real>, b: seq<real>, bounds: seq<real>)
    ensures forall bound :: bound in bounds ==>
              Buckets(a + b, bounds)[bound] == Buckets(a, bounds)[bound] + Buckets(b, bounds)[bound]
  {
    forall bound | bound in bounds
      ensures Buckets(a + b, bounds)[bound] == Buckets(a, bounds)[bound] + Buckets(b, bounds)[bound]
    {
      AtMostConcat(a, b, bound);
      Distribute(multiset(bounds)[bound], AtMost(a, bound), AtMost(b, bound));
    }
  }

  /** What a histogram says about the values of one pair at one bound. */
  datatype Statistics = Statistics(count: nat, sum: real, atMost: nat) {
    function Plus(other: Statistics): Statistics {
      Statistics(count + other.count, sum + other.sum, atMost + other.atMost)
    }
  }

  ghost function StatisticsOf(values: seq<LabeledValue>, k: Pair, bound: real): Statistics {
    Statistics(|Group(values, k)|, Sum(Group(values, k)), AtMost(Group(values, k), bound))
  }

  lemma {:induction false} StatisticsIgnoreOrder(xs: seq<LabeledValue>, ys: seq<LabeledValue>, k: Pair, bound: real)
    requires multiset(xs) == multiset(ys)
    ensures StatisticsOf(xs, k, bound) == StatisticsOf(ys, k, bound)
    decreases |xs|
  {
    if xs == [] {
      assert |multiset(ys)| == 0;
    } else {
      var front, last := xs[..|xs| - 1], xs[|xs| - 1];
      assert xs == front + [last];
      var a, b := TakeOut(front, last, ys);
      StatisticsIgnoreOrder(front, a + b, k, bound);
      Split(a, b, last, k, bound);
      Split(front, [], last, k, bound);
      assert front + [last] + [] == xs && front + [] == front;
    }
  }

  /** Taking one observation out of the middle. */
  lemma Split(a: seq<LabeledValue>, b: seq<LabeledValue>, v: LabeledValue, k: Pair, bound: real)
    ensures StatisticsOf(a + [v] + b, k, bound) == StatisticsOf(a + b, k, bound).Plus(StatisticsOf([v], k, bound))
  {
    GroupConcat(a + [v], b, k);
    GroupConcat(a, [v], k);
    GroupConcat(a, b, k);
    SplitReals(Group(a, k), Group([v], k), Group(b, k), bound);
  }

  lemma SplitReals(a: seq<real>, v: seq<real>, b: seq<real>, bound: real)
    ensures |a + v + b| == |a + b| + |v|
    ensures Sum(a + v + b) == Sum(a + b) + Sum(v)
    ensures AtMost(a + v + b, bound) == AtMost(a + b, bound) + AtMost(v, bound)
  {
    SumConcat(a + v, b);
    SumConcat(a, v);
    SumConcat(a, b);
    AtMostConcat(a + v, b, bound);
    AtMostConcat(a, v, bound);
    AtMostConcat(a, b, bound);
  }

  /** Reordering the observations changes no histogram. */
  lemma HistogramsIgnoreOrder(xs: seq<LabeledValue>, ys: seq<LabeledValue>, bounds: seq<real>, k: Pair)
    requires multiset(xs) == multiset(ys) && TwoLabels(xs) && k in PairSet(xs)
    ensures TwoLabels(ys) && k in PairSet(ys)
    ensures HistogramOf(xs, bounds, k) == HistogramOf(ys, bounds, k)
  {
    StatisticsIgnoreOrder(xs, ys, k, 0.0);
    forall b: real
      ensures AtMost(Group(xs, k), b) == AtMost(Group(ys, k), b)
    {
      StatisticsIgnoreOrder(xs, ys, k, b);
    }
    forall i | 0 <= i < |ys|
      ensures |ys[i].labels| == 2
    {
      assert ys[i] in multiset(ys);
      assert ys[i] in xs;
    }
    GroupSize(xs, k);
    GroupSize(ys, k);
    PairLabels(xs, k);
    PairLabels(ys, k);
  }

  // ---------- Cumulative buckets

  lemma {:induction false} AtMostMonotone(vals: seq<real>, b: real, c: real)
    requires b <= c
    ensures AtMost(vals, b) <= AtMost(vals, c)
  {
    if vals != [] {
      AtMostMonotone(vals[..|vals| - 1], b, c);
    }
  }

  lemma {:induction false} DistinctMultiplicity(bounds: seq<real>, b: real)
    requires Distinct(bounds) && b in bounds
    ensures multiset(bounds)[b] == 1
  {
    var front, last := bounds[..|bounds| - 1], bounds[|bounds| - 1];
    assert bounds == front + [last];
    if b in front {
      DistinctMultiplicity(front, b);
    }
  }

  /** Each bucket is the number of values up to its bound. */
  ghost predicate Cumulative(vals: seq<real>, bounds: seq<real>) {
    forall b :: b in bounds ==> Buckets(vals, bounds)[b] == AtMost(vals, b)
  }

  /** With distinct bounds the buckets are cumulative: bounded by the count and growing with the bound. */
  lemma {:induction false} DistinctBoundsCumulate(vals: seq<real>, bounds: seq<real>)
    requires Distinct(bounds)
    ensures Cumulative(vals, bounds)
    ensures forall b, c :: b in bounds && c in bounds && b <= c ==>
              Buckets(vals, bounds)[b] <= Buckets(vals, bounds)[c] <= |vals|
  {
    forall b | b in bounds
      ensures Buckets(vals, bounds)[b] == AtMost(vals, b)
    {
      DistinctMultiplicity(bounds, b);
    }
    forall b, c | b in bounds && c in bounds && b <= c
      ensures Buckets(vals, bounds)[b] <= Buckets(vals, bounds)[c] <= |vals|
    {
      AtMostMonotone(vals, b, c);
    }
  }

  /** A repeated bound spoils some histogram, so the configured list works exactly when it has no repetition. */
  lemma CumulativeIffDistinct(bounds: seq<real>)
    ensures Distinct(bounds) <==> forall vals :: Cumulative(vals, bounds)
  {
    if Distinct(bounds) {
      forall vals
        ensures Cumulative(vals, bounds)
      {
        DistinctBoundsCumulate(vals, bounds);
      }
    } else {
      var i, j :| 0 <= i < j < |bounds| && bounds[i] == bounds[j];
      var b := bounds[i];
      assert bounds == bounds[..j] + [bounds[j]] + bounds[j + 1..];
      assert b == bounds[..j][i];
      assert multiset(bounds)[b] >= 2;
      assert AtMost([b], b) == 1;
      assert Buckets([b], bounds)[b] == multiset(bounds)[b];
      assert !Cumulative([b], bounds);
    }
  }

  /** For instance one observation of 1 under the bounds 1 and 1: its bucket holds 2, more than the count. */
  lemma RepeatedBoundOverflows(labels: seq<string>)
    ensures var h := HistogramOf([LabeledValue(labels, 1.0)], [1.0, 1.0], PairOf(labels));
            h.count == 1 && h.buckets == map[1.0 := 2]
  {
    var values, bounds := [LabeledValue(labels, 1.0)], [1.0, 1.0];
    assert Group(values[..0], PairOf(labels)) == [];
    assert Group(values, PairOf(labels)) == [1.0];
    assert AtMost([1.0], 1.0) == 1;
    assert multiset(bounds)[1.0] == 2;
    assert Buckets([1.0], bounds).Keys == {1.0};
  }
}
