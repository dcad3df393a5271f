/** Counting maps: what the Go idiom `counts[k]++` over a list leaves behind. */
module Tally {
  import opened Prelude

  ghost function Elements<K>(ks: seq<K>): set<K> {
    set k | k in ks
  }

  /** m holds exactly the keys of ks, each with its number of occurrences. */
  ghost predicate Counts<K>(m: map<K, nat>, ks: seq<K>) {
    && m.Keys == Elements(ks)
    && forall k :: k in m ==> m[k] == multiset(ks)[k]
  }

  /** `m[k]++`, where a missing key reads as zero. */
  function Bump<K>(m: map<K, nat>, k: K): map<K, nat> {
    m[k := (if k in m then m[k] else 0) + 1]
  }

  lemma BumpCounts<K>(m: map<K, nat>, ks: seq<K>, k: K)
    requires Counts(m, ks)
    ensures Counts(Bump(m, k), ks + [k])
  {
    var after := Bump(m, k);
    assert after.Keys == Elements(ks + [k]);
    assert multiset(ks + [k]) == multiset(ks) + multiset{k};
    if k !in m {
      assert k !in ks;
    }
  }

  function BumpAll<K>(m: map<K, nat>, more: seq<K>): map<K, nat> {
    if more == [] then m else Bump(BumpAll(m, more[..|more| - 1]), more[|more| - 1])
  }

  lemma {:induction false} BumpAllCounts<K>(m: map<K, nat>, ks: seq<K>, more: seq<K>)
    requires Counts(m, ks)
    ensures Counts(BumpAll(m, more), ks + more)
  {
    if more == [] {
      assert ks + more == ks;
    } else {
      var front, k := more[..|more| - 1], more[|more| - 1];
      var before := ks + front;
      assert ks + more == before + [k];
      BumpAllCounts(m, ks, front);
      BumpCounts(BumpAll(m, front), before, k);
    }
  }

  /** `for _, k := range more { m[k]++ }`. */
  method CountAll<K(==)>(m: map<K, nat>, more: seq<K>, ghost ks: seq<K>) returns (m': map<K, nat>)
    requires Counts(m, ks)
    ensures Counts(m', ks + more)
  {
    m' := m;
    for i := 0 to |more|
      invariant m' == BumpAll(m, more[..i])
    {
      assert more[..i + 1][..i] == more[..i];
      m' := Bump(m', more[i]);
    }
    assert more[..|more|] == more;
    BumpAllCounts(m, ks, more);
  }

  /** Sum, over the keys listed in order, of their number of occurrences in ks. */
  ghost function Total<K>(ks: seq<K>, order: seq<K>): nat {
    if order == [] then 0
    else Total(ks, order[..|order| - 1]) + multiset(ks)[order[|order| - 1]]
  }

  /** How many elements of ks are listed in order. */
  ghost function Within<K>(ks: seq<K>, order: seq<K>): nat {
    if ks == [] then 0
    else Within(ks[..|ks| - 1], order) + if ks[|ks| - 1] in order then 1 else 0
  }

  lemma {:induction false} WithinSnoc<K>(ks: seq<K>, order: seq<K>, k: K)
    requires k !in order
    ensures Within(ks, order + [k]) == Within(ks, order) + multiset(ks)[k]
  {
    if ks == [] {
    } else {
      var front, last := ks[..|ks| - 1], ks[|ks| - 1];
      WithinSnoc(front, order, k);
      assert ks == front + [last];
      assert last in order + [k] <==> last in order || last == k;
    }
  }

  /** Over any duplicate-free list of keys the counts add up to the elements they stand for. */
  lemma {:induction false} TotalIsWithin<K>(ks: seq<K>, order: seq<K>)
    requires Distinct(order)
    ensures Total(ks, order) == Within(ks, order)
  {
    if order == [] {
      WithinNone(ks);
    } else {
      var front, last := order[..|order| - 1], order[|order| - 1];
      assert order == front + [last];
      TotalIsWithin(ks, front);
      WithinSnoc(ks, front, last);
    }
  }

  lemma {:induction false} WithinNone<K>(ks: seq<K>)
    ensures Within(ks, []) == 0
  {
    if ks != [] {
      WithinNone(ks[..|ks| - 1]);
    }
  }

  lemma {:induction false} WithinAll<K>(ks: seq<K>, order: seq<K>)
    requires forall k :: k in ks ==> k in order
    ensures Within(ks, order) == |ks|
  {
    if ks != [] {
      WithinAll(ks[..|ks| - 1], order);
    }
  }

  /** Conservation: visiting every key of a tally once, in any order, sums to the length of the list. */
  lemma TotalCovers<K>(ks: seq<K>, order: seq<K>)
    requires RangeOrder(order, Elements(ks))
    ensures Total(ks, order) == |ks|
  {
    TotalIsWithin(ks, order);
    forall k | k in ks
      ensures k in order
    {
      assert k in Elements(ks);
    }
    WithinAll(ks, order);
  }

  /** Two lists with the same elements: the last of one can be taken out of the other. */
  lemma TakeOut<T>(front: seq<T>, last: T, ys: seq<T>) returns (a: seq<T>, b: seq<T>)
    requires multiset(front + [last]) == multiset(ys)
    ensures ys == a + [last] + b
    ensures multiset(front) == multiset(a + b)
    ensures |a + b| == |front|
  {
    assert last in multiset(front + [last]);
    assert last in ys;
    var j :| 0 <= j < |ys| && ys[j] == last;
    a, b := ys[..j], ys[j + 1..];
    assert ys == a + [last] + b;
    var one := multiset{last};
    assert multiset(ys) == multiset(a + b) + one by {
      assert multiset(a + [last] + b) == multiset(a) + one + multiset(b);
    }
    assert multiset(front + [last]) == multiset(front) + one;
    assert multiset(front) == (multiset(front) + one) - one == (multiset(a + b) + one) - one == multiset(a + b);
    assert |multiset(front)| == |multiset(a + b)|;
  }
}
