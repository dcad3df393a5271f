/** internal/exporter/exporter.go, discoverProjects: explicit names and wildcard listings without repetition. */
module Discovery {
  import opened Prelude
  import opened Pagination

  /** The first occurrence of every element, in order. */
  function Dedupe<T(==)>(xs: seq<T>): seq<T> {
    if xs == [] then []
    else
      var front, last := Dedupe(xs[..|xs| - 1]), xs[|xs| - 1];
      if last in front then front else front + [last]
  }

  /** The index of the first x in xs. */
  ghost function FirstIndex<T>(xs: seq<T>, x: T): (i: nat)
    requires x in xs
    ensures i < |xs| && xs[i] == x && forall j :: 0 <= j < i ==> xs[j] != x
  {
    if xs[0] == x then 0 else 1 + FirstIndex(xs[1..], x)
  }

  /** d lists exactly the elements of xs, each once, ordered by where it first occurs in xs. */
  ghost predicate FirstOccurrences<T>(xs: seq<T>, d: seq<T>) {
    && Distinct(d)
    && (forall x :: x in d ==> x in xs)
    && (forall x :: x in xs ==> x in d)
    && (forall i, j :: 0 <= i < j < |d| ==> FirstIndex(xs, d[i]) < FirstIndex(xs, d[j]))
  }

  lemma FirstIndexOfPrefix<T>(front: seq<T>, last: T, x: T)
    requires x in front + [last]
    ensures FirstIndex(front + [last], x) == if x in front then FirstIndex(front, x) else |front|
  {
    var i := FirstIndex(front + [last], x);
    if x in front {
      assert (front + [last])[FirstIndex(front, x)] == x;
    }
  }

  lemma {:induction false} DedupeFirstOccurrences<T>(xs: seq<T>)
    ensures FirstOccurrences(xs, Dedupe(xs))
  {
    if xs == [] {
    } else {
      var front, last := xs[..|xs| - 1], xs[|xs| - 1];
      DedupeFirstOccurrences(front);
      assert xs == front + [last];
      var d := Dedupe(xs);
      forall x | x in xs
        ensures FirstIndex(xs, x) == if x in front then FirstIndex(front, x) else |front|
      {
        FirstIndexOfPrefix(front, last, x);
      }
      forall i, j | 0 <= i < j < |d|
        ensures FirstIndex(xs, d[i]) < FirstIndex(xs, d[j])
      {
        assert d[i] == Dedupe(front)[i];
        assert d[i] in front;
        if j < |Dedupe(front)| {
          assert d[j] in front;
        }
      }
    }
  }

  /** The first-occurrence list is the only one: Dedupe could not answer differently. */
  lemma {:induction false} FirstOccurrencesUnique<T>(xs: seq<T>, d: seq<T>, e: seq<T>, n: nat)
    requires FirstOccurrences(xs, d) && FirstOccurrences(xs, e)
    requires n <= |d| && n <= |e|
    ensures forall i :: 0 <= i < n ==> d[i] == e[i]
  {
    if n > 0 {
      FirstOccurrencesUnique(xs, d, e, n - 1);
      NoEarlierNewcomer(xs, d, e, n - 1);
      NoEarlierNewcomer(xs, e, d, n - 1);
      assert xs[FirstIndex(xs, d[n - 1])] == d[n - 1] && xs[FirstIndex(xs, e[n - 1])] == e[n - 1];
    }
  }

  /** d lists the first occurrences of xs exactly when it is Dedupe(xs). */
  lemma DedupeCharacterised<T>(xs: seq<T>, d: seq<T>)
    ensures FirstOccurrences(xs, d) <==> d == Dedupe(xs)
  {
    var e := Dedupe(xs);
    DedupeFirstOccurrences(xs);
    if FirstOccurrences(xs, d) {
      DistinctLength(d, set x | x in e);
      DistinctLength(e, set x | x in d);
      NoMoreThanLength(d);
      NoMoreThanLength(e);
      FirstOccurrencesUnique(xs, d, e, |d|);
    }
  }

  lemma {:induction false} NoMoreThanLength<T>(s: seq<T>)
    ensures |set x | x in s| <= |s|
  {
    if s != [] {
      var front, last := s[..|s| - 1], s[|s| - 1];
      NoMoreThanLength(front);
      assert s == front + [last];
      assert (set x | x in s) == (set x | x in front) + {last};
    }
  }

  /** Where two such lists first differ, neither can hold an element the other lists later or never. */
  lemma NoEarlierNewcomer<T>(xs: seq<T>, d: seq<T>, e: seq<T>, n: nat)
    requires FirstOccurrences(xs, d) && FirstOccurrences(xs, e)
    requires n < |d| && n < |e| && (forall i :: 0 <= i < n ==> d[i] == e[i])
    ensures FirstIndex(xs, e[n]) <= FirstIndex(xs, d[n])
  {
    assert d[n] in e;
    var i :| 0 <= i < |e| && e[i] == d[n];
  }

  /** More input at the end only extends the result. */
  lemma {:induction false} DedupeExtends<T>(xs: seq<T>, ys: seq<T>)
    ensures Dedupe(xs) <= Dedupe(xs + ys)
  {
    if ys == [] {
      assert xs + ys == xs;
    } else {
      DedupeExtends(xs, ys[..|ys| - 1]);
      assert (xs + ys)[..|xs + ys| - 1] == xs + ys[..|ys| - 1];
    }
  }

  datatype Discovered = Projects(paths: seq<string>) | NoProjects

  /** A complete listing; every reply without an error carries a response. */
  ghost predicate Expandable(replies: seq<Reply<string>>) {
    && Ends(replies)
    && (forall i :: 0 <= i < |replies| && replies[i].Listed? ==> replies[i].response.Some?)
  }

  /** What the first n wildcards list, each up to its end or first failure. */
  ghost function WildcardPaths(wildcards: seq<seq<Reply<string>>>, n: nat): seq<string>
    requires n <= |wildcards|
  {
    if n == 0 then [] else WildcardPaths(wildcards, n - 1) + Items(wildcards[n - 1])
  }

  /** The pages asked for are those that the replies lead to. */
  ghost predicate AskedFor(asked: seq<seq<int>>, wildcards: seq<seq<Reply<string>>>) {
    |asked| <= |wildcards| && forall w :: 0 <= w < |asked| ==> asked[w] == Pages(wildcards[w])
  }

  /** wildcards[w] are the replies to the w-th wildcard's listing; asked[w] the pages it asks for. */
  method DiscoverProjects(names: seq<string>, wildcards: seq<seq<Reply<string>>>)
    returns (r: Discovered, asked: seq<seq<int>>)
    requires forall w :: 0 <= w < |wildcards| ==> Expandable(wildcards[w])
    ensures var found := Dedupe(names + WildcardPaths(wildcards, |wildcards|));
            r == if found == [] then NoProjects else Projects(found)
    ensures |asked| == |wildcards| && AskedFor(asked, wildcards)
  {
    var seen: set<string> := {};
    var projects: seq<string> := [];
    seen, projects := NoteAll([], seen, projects, names);
    assert [] + names == names;

    seen, projects, asked := ExpandAll(names, seen, projects, wildcards);
    r := if |projects| == 0 then NoProjects else Projects(projects);
  }

  method ExpandAll(ghost names: seq<string>, seen: set<string>, projects: seq<string>, wildcards: seq<seq<Reply<string>>>)
    returns (seen': set<string>, projects': seq<string>, asked: seq<seq<int>>)
    requires Unrepeated(names, seen, projects)
    requires forall w :: 0 <= w < |wildcards| ==> Expandable(wildcards[w])
    ensures Unrepeated(names + WildcardPaths(wildcards, |wildcards|), seen', projects')
    ensures |asked| == |wildcards| && AskedFor(asked, wildcards)
  {
    seen', projects', asked := seen, projects, [];
    ghost var input := names;
    assert names + WildcardPaths(wildcards, 0) == names;
    for w := 0 to |wildcards|
      invariant input == names + WildcardPaths(wildcards, w)
      invariant Unrepeated(input, seen', projects')
      invariant |asked| == w && AskedFor(asked, wildcards)
    {
      var pages;
      seen', projects', pages := ExpandWildcard(input, seen', projects', wildcards[w]);
      ConcatAssociates(names, WildcardPaths(wildcards, w), Items(wildcards[w]));
      input := input + Items(wildcards[w]);
      AskedForSnoc(asked, wildcards, pages);
      asked := asked + [pages];
    }
  }

  lemma AskedForSnoc(asked: seq<seq<int>>, wildcards: seq<seq<Reply<string>>>, pages: seq<int>)
    requires |asked| < |wildcards| && AskedFor(asked, wildcards) && pages == Pages(wildcards[|asked|])
    ensures AskedFor(asked + [pages], wildcards)
  {
  }

  /** seen and projects after reading input: the same elements, projects without repetition. */
  ghost predicate Unrepeated(input: seq<string>, seen: set<string>, projects: seq<string>) {
    && projects == Dedupe(input)
    && seen == set x | x in projects
  }

  method Note(ghost input: seq<string>, seen: set<string>, projects: seq<string>, path: string)
    returns (seen': set<string>, projects': seq<string>)
    requires Unrepeated(input, seen, projects)
    ensures Unrepeated(input + [path], seen', projects')
  {
    seen', projects' := seen, projects;
    assert (input + [path])[..|input|] == input;
    if path !in seen {
      seen' := seen + {path};
      projects' := projects + [path];
    }
  }

  /** The loop over one page of paths. */
  method NoteAll(ghost input: seq<string>, seen: set<string>, projects: seq<string>, paths: seq<string>)
    returns (seen': set<string>, projects': seq<string>)
    requires Unrepeated(input, seen, projects)
    ensures Unrepeated(input + paths, seen', projects')
  {
    seen', projects' := seen, projects;
    assert input + paths[..0] == input;
    for k := 0 to |paths|
      invariant Unrepeated(input + paths[..k], seen', projects')
    {
      seen', projects' := Note(input + paths[..k], seen', projects', paths[k]);
      assert input + paths[..k] + [paths[k]] == input + paths[..k + 1];
    }
    assert paths[..|paths|] == paths;
  }

  /** The page loop of one wildcard; a failed page ends it and keeps what was found. */
  method ExpandWildcard(ghost input: seq<string>, seen: set<string>, projects: seq<string>,
                        replies: seq<Reply<string>>)
    returns (seen': set<string>, projects': seq<string>, asked: seq<int>)
    requires Unrepeated(input, seen, projects)
    requires Expandable(replies)
    ensures Unrepeated(input + Items(replies), seen', projects')
    ensures asked == Pages(replies)
  {
    seen', projects', asked := seen, projects, [];
    var page, i := 1, 0;
    ghost var (read, found) := (input, []);
    while true
      invariant 0 <= i < |replies| && PageAt(replies, i) == page
      invariant asked == Pages(replies[..i])
      invariant found == Items(replies[..i])
      invariant read == input + found
      invariant Unrepeated(read, seen', projects')
      decreases |replies| - i
    {
      ItemsSnoc(replies, i);
      assert i == |replies| - 1 ==> replies[..i + 1] == replies;
      PagesSnoc(replies, i);
      asked := asked + [page];
      var reply := replies[i];
      if !reply.Listed? {
        break;
      }
      seen', projects' := NoteAll(read, seen', projects', reply.items);
      ConcatAssociates(input, found, reply.items);
      read, found := read + reply.items, found + reply.items;
      if reply.response.value.nextPage == 0 {
        break;
      }
      page, i := reply.response.value.nextPage, i + 1;
    }
    assert read == input + Items(replies);
  }

  /**
   * Whatever the configuration and the replies, the discovered projects are the explicit names and
   * listed paths at their first occurrence, each exactly once; further wildcards only add to the end.
   */
  lemma DiscoveryIsFirstOccurrence(names: seq<string>, wildcards: seq<seq<Reply<string>>>, n: nat)
    requires n <= |wildcards|
    ensures var input := names + WildcardPaths(wildcards, n);
            && FirstOccurrences(input, Dedupe(input))
            && Dedupe(input) <= Dedupe(names + WildcardPaths(wildcards, |wildcards|))
  {
    var input := names + WildcardPaths(wildcards, n);
    DedupeFirstOccurrences(input);
    var rest := LaterPaths(wildcards, n);
    DedupeExtends(input, rest);
    assert input + rest == names + WildcardPaths(wildcards, |wildcards|);
  }

  lemma {:induction false} LaterPaths(wildcards: seq<seq<Reply<string>>>, n: nat) returns (rest: seq<string>)
    requires n <= |wildcards|
    ensures WildcardPaths(wildcards, |wildcards|) == WildcardPaths(wildcards, n) + rest
    decreases |wildcards| - n
  {
    if n == |wildcards| {
      rest := [];
    } else {
      var later := LaterPaths(wildcards, n + 1);
      rest := Items(wildcards[n]) + later;
    }
  }
}
