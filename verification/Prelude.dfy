/** Small vocabulary shared by every module. */
module Prelude {

  datatype Option<+T> = None | Some(value: T) {
    function GetOr(default: T): T {
      if Some? then value else default
    }
  }

  /** No element occurs twice. */
  ghost predicate Distinct<T>(s: seq<T>) {
    forall i, j :: 0 <= i < j < |s| ==> s[i] != s[j]
  }

  function Map<A, B>(f: A -> B, s: seq<A>): (r: seq<B>)
    ensures |r| == |s|
  {
    seq(|s|, i requires 0 <= i < |s| => f(s[i]))
  }

  /** The elements that satisfy p, in order. */
  function Filter<T>(p: T -> bool, s: seq<T>): (r: seq<T>)
    ensures |r| <= |s|
  {
    if s == [] then []
    else
      var front, last := Filter(p, s[..|s| - 1]), s[|s| - 1];
      if p(last) then front + [last] else front
  }

  function Positive<T>(f: T -> real): T -> bool {
    (x: T) => f(x) > 0.0
  }

  function Count<T>(p: T -> bool, s: seq<T>): nat {
    |Filter(p, s)|
  }

  function RealSum<T>(f: T -> real, s: seq<T>): real {
    if s == [] then 0.0 else RealSum(f, s[..|s| - 1]) + f(s[|s| - 1])
  }

  function NatSum<T>(f: T -> nat, s: seq<T>): nat {
    if s == [] then 0 else NatSum(f, s[..|s| - 1]) + f(s[|s| - 1])
  }

  lemma FilterSnoc<T>(p: T -> bool, s: seq<T>, x: T)
    ensures Filter(p, s + [x]) == if p(x) then Filter(p, s) + [x] else Filter(p, s)
  {
    assert (s + [x])[..|s|] == s;
  }

  lemma RealSumSnoc<T>(f: T -> real, s: seq<T>, x: T)
    ensures RealSum(f, s + [x]) == RealSum(f, s) + f(x)
  {
    assert (s + [x])[..|s|] == s;
  }

  lemma PositiveSnoc<T>(f: T -> real, s: seq<T>, x: T)
    ensures Count(Positive(f), s + [x]) == Count(Positive(f), s) + if f(x) > 0.0 then 1 else 0
    ensures RealSum(f, Filter(Positive(f), s + [x])) ==
            RealSum(f, Filter(Positive(f), s)) + if f(x) > 0.0 then f(x) else 0.0
  {
    FilterSnoc(Positive(f), s, x);
    RealSumSnoc(f, Filter(Positive(f), s), x);
  }

  lemma NatSumSnoc<T>(f: T -> nat, s: seq<T>, x: T)
    ensures NatSum(f, s + [x]) == NatSum(f, s) + f(x)
  {
    assert (s + [x])[..|s|] == s;
  }

  lemma {:induction false} FilterMembers<T>(p: T -> bool, s: seq<T>)
    ensures forall x :: x in Filter(p, s) <==> x in s && p(x)
  {
    if s != [] {
      FilterMembers(p, s[..|s| - 1]);
      assert s == s[..|s| - 1] + [s[|s| - 1]];
    }
  }

  lemma {:induction false} FilterSame<T>(p: T -> bool, q: T -> bool, s: seq<T>)
    requires forall x :: p(x) <==> q(x)
    ensures Filter(p, s) == Filter(q, s)
  {
    if s != [] {
      FilterSame(p, q, s[..|s| - 1]);
    }
  }

  /** One order in which a Go `range` loop may visit a map with these keys. */
  ghost predicate RangeOrder<K>(order: seq<K>, keys: set<K>) {
    && Distinct(order)
    && (forall i :: 0 <= i < |order| ==> order[i] in keys)
    && (forall k :: k in keys ==> k in order)
  }

  lemma RangeOrderSnoc<K>(order: seq<K>, keys: set<K>, k: K)
    requires RangeOrder(order, keys) && k !in keys
    ensures RangeOrder(order + [k], keys + {k})
  {
  }

  /** A duplicate-free sequence whose elements lie in a finite set is no longer than that set. */
  lemma {:induction false} DistinctLength<T>(s: seq<T>, bound: set<T>)
    requires Distinct(s)
    requires forall x :: x in s ==> x in bound
    ensures |s| <= |bound|
  {
    if s == [] {
    } else {
      var last := s[|s| - 1];
      var front := s[..|s| - 1];
      assert forall x :: x in front ==> x in s && x != last;
      DistinctLength(front, bound - {last});
    }
  }

  lemma PrefixSnoc<T>(s: seq<T>, i: nat)
    requires i < |s|
    ensures s[..i + 1] == s[..i] + [s[i]]
  {
  }

  lemma TakeFront<T>(s: seq<T>, x: T)
    ensures s[..|s|] == s && (s + [x])[..|s|] == s && (s + [x])[..|s| + 1] == s + [x]
  {
  }

  lemma ConcatAssociates<T>(a: seq<T>, b: seq<T>, c: seq<T>)
    ensures (a + b) + c == a + (b + c)
  {
  }

  lemma MulMonotone(a: int, b: int, factor: int)
    requires a <= b && factor >= 0
    ensures a * factor <= b * factor && factor * a <= factor * b
  {
  }

  lemma Distribute(a: int, b: int, c: int)
    ensures a * (b + c) == a * b + a * c
    ensures a * (b - c) == a * b - a * c
  {
  }

  const MAX_INT64: int := 0x7fff_ffff_ffff_ffff
  const MIN_INT64: int := -0x8000_0000_0000_0000

  /** The int64 that remains of an exact product: two's-complement wrap-around. */
  function Wrap64(n: int): (w: int)
    ensures MIN_INT64 <= w <= MAX_INT64
    ensures (n - w) % 0x1_0000_0000_0000_0000 == 0
    ensures MIN_INT64 <= n <= MAX_INT64 ==> w == n
  {
    var m := n % 0x1_0000_0000_0000_0000;
    if m > MAX_INT64 then m - 0x1_0000_0000_0000_0000 else m
  }

  /** Nanoseconds since the Unix epoch, from one non-decreasing clock. */
  type Time = int

  const SECOND: int := 1_000_000_000
}
