/** internal/collector/merge_requests.go, emitHistograms: constant histograms grouped by label pair. */
module Histograms {
  import opened Prelude
  import opened Tally

  datatype LabeledValue = LabeledValue(labels: seq<string>, value: real)

  /** The first two labels; a missing one reads as "". */
  datatype Pair = Pair(a: string, b: string)

  datatype Histogram = Histogram(labels: seq<string>, count: nat, sum: real, buckets: map<real, nat>)

  function PairOf(labels: seq<string>): Pair {
    Pair(if |labels| > 0 then labels[0] else "", if |labels| > 1 then labels[1] else "")
  }

  // ---------- What the histograms mean

  /** The values observed under a label pair, in order. */
  function Group(values: seq<LabeledValue>, k: Pair): (vals: seq<real>) {
    if values == [] then []
    else
      var last := values[|values| - 1];
      Group(values[..|values| - 1], k) + if PairOf(last.labels) == k then [last.value] else []
  }

  /** The labels a pair is emitted with: those of its last observation. */
  function GroupLabels(values: seq<LabeledValue>, k: Pair): seq<string> {
    if values == [] then []
    else
      var last := values[|values| - 1];
      if PairOf(last.labels) == k then last.labels else GroupLabels(values[..|values| - 1], k)
  }

  ghost function Pairs(values: seq<LabeledValue>): (ks: seq<Pair>)
    ensures |ks| == |values|
  {
    seq(|values|, i requires 0 <= i < |values| => PairOf(values[i].labels))
  }

  /** The keys of the group map. */
  ghost function PairSet(values: seq<LabeledValue>): set<Pair> {
    Elements(Pairs(values))
  }

  function Sum(vals: seq<real>): real {
    if vals == [] then 0.0 else Sum(vals[..|vals| - 1]) + vals[|vals| - 1]
  }

  /** |{v in vals : v <= b}|, with multiplicity. */
  function AtMost(vals: seq<real>, b: real): (n: nat)
    ensures n <= |vals|
  {
    if vals == [] then 0
    else AtMost(vals[..|vals| - 1], b) + if vals[|vals| - 1] <= b then 1 else 0
  }

  /** Each bound b: (occurrences of b in the bucket list) times |{v <= b}|. */
  function Buckets(vals: seq<real>, bounds: seq<real>): map<real, nat> {
    map b | b in bounds :: multiset(bounds)[b] * AtMost(vals, b)
  }

  function HistogramOf(values: seq<LabeledValue>, bounds: seq<real>, k: Pair): Histogram {
    Histogram(GroupLabels(values, k), |Group(values, k)|, Sum(Group(values, k)), Buckets(Group(values, k), bounds))
  }

  /** The histograms sent when the group map is visited in this order: a label-count mismatch is skipped. */
  ghost function Emitted(values: seq<LabeledValue>, bounds: seq<real>, arity: nat, order: seq<Pair>): seq<Histogram> {
    if order == [] then []
    else
      var k := order[|order| - 1];
      Emitted(values, bounds, arity, order[..|order| - 1])
      + if |GroupLabels(values, k)| == arity then [HistogramOf(values, bounds, k)] else []
  }

  // ---------- The loops

  lemma PairSetSnoc(values: seq<LabeledValue>, v: LabeledValue)
    ensures Pairs(values + [v]) == Pairs(values) + [PairOf(v.labels)]
    ensures PairSet(values + [v]) == PairSet(values) + {PairOf(v.labels)}
  {
    assert Pairs(values + [v]) == Pairs(values) + [PairOf(v.labels)];
  }

  lemma GroupSnoc(values: seq<LabeledValue>, v: LabeledValue, k: Pair)
    ensures Group(values + [v], k) == if PairOf(v.labels) == k then Group(values, k) + [v.value] else Group(values, k)
    ensures GroupLabels(values + [v], k) == if PairOf(v.labels) == k then v.labels else GroupLabels(values, k)
  {
    assert (values + [v])[..|values|] == values;
  }

  ghost predicate Grouped(values: seq<LabeledValue>, groups: map<Pair, seq<real>>, labels: map<Pair, seq<string>>) {
    && groups.Keys == labels.Keys == PairSet(values)
    && (forall k :: k in groups ==> groups[k] == Group(values, k))
    && (forall k :: k in labels ==> labels[k] == GroupLabels(values, k))
  }

  lemma {:induction false} NotGroupedYet(values: seq<LabeledValue>, k: Pair)
    requires k !in PairSet(values)
    ensures Group(values, k) == []
  {
    if values != [] {
      var front, last := values[..|values| - 1], values[|values| - 1];
      assert values == front + [last];
      PairSetSnoc(front, last);
      NotGroupedYet(front, k);
    }
  }

  function Append(groups: map<Pair, seq<real>>, k: Pair, v: real): map<Pair, seq<real>> {
    groups[k := (if k in groups then groups[k] else []) + [v]]
  }

  lemma GroupedSnoc(values: seq<LabeledValue>, v: LabeledValue,
                    groups: map<Pair, seq<real>>, labels: map<Pair, seq<string>>)
    requires Grouped(values, groups, labels)
    ensures var k := PairOf(v.labels);
            Grouped(values + [v], Append(groups, k, v.value), labels[k := v.labels])
  {
    var k, all := PairOf(v.labels), values + [v];
    var grown, relabeled := Append(groups, k, v.value), labels[k := v.labels];
    assert grown.Keys == relabeled.Keys == PairSet(all) by {
      PairSetSnoc(values, v);
    }
    forall q | q in grown
      ensures grown[q] == Group(all, q) && relabeled[q] == GroupLabels(all, q)
    {
      GroupSnoc(values, v, q);
      if q == k && k !in groups {
        NotGroupedYet(values, k);
      }
    }
  }

  method GroupByPair(values: seq<LabeledValue>)
    returns (groups: map<Pair, seq<real>>, labels: map<Pair, seq<string>>)
    ensures Grouped(values, groups, labels)
  {
    groups, labels := map[], map[];
    for i := 0 to |values|
      invariant Grouped(values[..i], groups, labels)
    {
      var v := values[i];
      var k := PairOf(v.labels);
      GroupedSnoc(values[..i], v, groups, labels);
      assert values[..i] + [v] == values[..i + 1];
      groups := Append(groups, k, v.value);
      labels := labels[k := v.labels];
    }
    assert values[..|values|] == values;
  }

  /** Bucket counts while value v has been compared with the first j bounds. */
  ghost predicate Counting(counts: map<real, nat>, bounds: seq<real>, before: seq<real>, v: real, j: nat)
    requires j <= |bounds|
  {
    && counts.Keys == (set b | b in bounds)
    && forall b :: b in counts ==>
         counts[b] == multiset(bounds)[b] * AtMost(before, b) + if v <= b then multiset(bounds[..j])[b] else 0
  }

  method CountValue(counts: map<real, nat>, bounds: seq<real>, ghost before: seq<real>, v: real)
    returns (counts': map<real, nat>)
    requires counts == Buckets(before, bounds)
    ensures counts' == Buckets(before + [v], bounds)
  {
    counts' := counts;
    for j := 0 to |bounds|
      invariant Counting(counts', bounds, before, v, j)
    {
      assert bounds[..j + 1] == bounds[..j] + [bounds[j]];
      if v <= bounds[j] {
        counts' := counts'[bounds[j] := counts'[bounds[j]] + 1];
      }
    }
    assert bounds[..|bounds|] == bounds;
    assert (before + [v])[..|before|] == before;
    forall b | b in counts'
      ensures counts'[b] == multiset(bounds)[b] * AtMost(before + [v], b)
    {
      Distribute(multiset(bounds)[b], AtMost(before, b), 1);
    }
  }

  method Zeroed(bounds: seq<real>) returns (counts: map<real, nat>)
    ensures counts == Buckets([], bounds)
  {
    counts := map[];
    for j := 0 to |bounds|
      invariant counts == map b | b in bounds[..j] :: 0
    {
      counts := counts[bounds[j] := 0];
    }
    assert bounds[..|bounds|] == bounds;
  }

  method CopyBuckets(counts: map<real, nat>, bounds: seq<real>) returns (final: map<real, nat>)
    requires counts.Keys == set b | b in bounds
    ensures final == counts
  {
    final := map[];
    for j := 0 to |bounds|
      invariant final == map b | b in bounds[..j] && b in counts :: counts[b]
    {
      assert bounds[j] in counts;
      final := final[bounds[j] := counts[bounds[j]]];
    }
    assert bounds[..|bounds|] == bounds;
  }

  method CountGroup(vals: seq<real>, bounds: seq<real>) returns (sum: real, final: map<real, nat>)
    ensures sum == Sum(vals)
    ensures final == Buckets(vals, bounds)
  {
    var counts := Zeroed(bounds);
    sum := 0.0;
    for i := 0 to |vals|
      invariant sum == Sum(vals[..i])
      invariant counts == Buckets(vals[..i], bounds)
    {
      SumSnoc(vals[..i], vals[i]);
      assert vals[..i + 1] == vals[..i] + [vals[i]];
      sum := sum + vals[i];
      counts := CountValue(counts, bounds, vals[..i], vals[i]);
    }
    assert vals[..|vals|] == vals;
    final := CopyBuckets(counts, bounds);
  }

  lemma SumSnoc(vals: seq<real>, v: real)
    ensures Sum(vals + [v]) == Sum(vals) + v
  {
    assert (vals + [v])[..|vals|] == vals;
  }

  lemma EmittedSnoc(values: seq<LabeledValue>, bounds: seq<real>, arity: nat, order: seq<Pair>, k: Pair)
    ensures Emitted(values, bounds, arity, order + [k]) ==
            Emitted(values, bounds, arity, order)
            + if |GroupLabels(values, k)| == arity then [HistogramOf(values, bounds, k)] else []
  {
    assert (order + [k])[..|order|] == order;
  }

  /** hs is what emitHistograms sends for these values, in some map iteration order. */
  ghost predicate Sends(hs: seq<Histogram>, values: seq<LabeledValue>, bounds: seq<real>, arity: nat) {
    exists order :: RangeOrder(order, PairSet(values)) && hs == Emitted(values, bounds, arity, order)
  }

  method EmitHistograms(values: seq<LabeledValue>, bounds: seq<real>, arity: nat) returns (out: seq<Histogram>)
    ensures Sends(out, values, bounds, arity)
  {
    var groups, labels := GroupByPair(values);
    out := [];
    ghost var order: seq<Pair> := [];
    ghost var visited: set<Pair> := {};
    var todo := groups.Keys;
    while todo != {}
      invariant visited !! todo && visited + todo == groups.Keys
      invariant RangeOrder(order, visited)
      invariant out == Emitted(values, bounds, arity, order)
      decreases todo
    {
      var k :| k in todo;
      var sum, final := CountGroup(groups[k], bounds);
      if |labels[k]| == arity {
        out := out + [Histogram(labels[k], |groups[k]|, sum, final)];
      }
      EmittedSnoc(values, bounds, arity, order, k);
      RangeOrderSnoc(order, visited, k);
      order := order + [k];
      visited := visited + {k};
      todo := todo - {k};
    }
    assert visited == groups.Keys;
  }
}
