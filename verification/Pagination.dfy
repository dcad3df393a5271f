/** internal/gitlab/rest.go: following NextPage through a paginated listing. */
module Pagination {
  import opened Prelude
  import opened RateLimiting
  import opened Spreading

  datatype Response = Response(nextPage: int, headers: Headers)

  /** What one fetch gives: the limiter's wait failed, the request failed, or a page arrived. */
  datatype Reply<T> = Refused | Failed | Listed(items: seq<T>, response: Option<Response>)

  /** The page asked for after this reply; 0 when the listing stops here. */
  function NextPage<T>(r: Reply<T>): int {
    if r.Listed? && r.response.Some? then r.response.value.nextPage else 0
  }

  function ItemsOf<T>(r: Reply<T>): seq<T> {
    if r.Listed? then r.items else []
  }

  predicate Answered<T>(r: Reply<T>) {
    r.Listed? && r.response.Some?
  }

  /** What the limiter is told by this reply. */
  function ReadFrom<T>(r: Reply<T>): Signals {
    if Answered(r) then Parse(r.response.value.headers) else Signals(None, None, None)
  }

  // A listing is the sequence of replies that arrive: the i-th answers the i-th fetch, whatever page
  // that asks for, and nothing relates two replies to the same page.

  /** The page of the i-th fetch. */
  function PageAt<T>(replies: seq<Reply<T>>, i: nat): int
    requires i <= |replies|
  {
    if i == 0 then 1 else NextPage(replies[i - 1])
  }

  function Pages<T>(replies: seq<Reply<T>>): (pages: seq<int>)
    ensures |pages| == |replies|
  {
    seq(|replies|, i requires 0 <= i < |replies| => PageAt(replies, i))
  }

  /** How many of these replies the loop receives: up to the first that names no next page. */
  function Fetched<T>(replies: seq<Reply<T>>): (n: nat)
    ensures n <= |replies|
  {
    if replies == [] then 0
    else if NextPage(replies[0]) == 0 then 1
    else 1 + Fetched(replies[1..])
  }

  /** Every reply but the last names a next page. */
  predicate Chained<T>(replies: seq<Reply<T>>) {
    forall i :: 0 <= i < |replies| - 1 ==> NextPage(replies[i]) != 0
  }

  /** These are all the replies of a listing that has come to its end. */
  predicate Ends<T>(replies: seq<Reply<T>>) {
    replies != [] && Chained(replies) && NextPage(replies[|replies| - 1]) == 0
  }

  /** Fetched cuts exactly where the loop stops. */
  lemma {:induction false} FetchedIff<T>(replies: seq<Reply<T>>, n: nat)
    requires n <= |replies|
    ensures n == Fetched(replies) <==> Chained(replies[..n]) && (n < |replies| ==> Ends(replies[..n]))
    decreases |replies|
  {
    if replies == [] {
    } else if n == 0 {
      assert replies[..0] == [];
    } else {
      var rest := replies[1..];
      assert forall i :: 0 <= i < |rest| ==> rest[i] == replies[i + 1];
      FetchedIff(rest, n - 1);
      assert replies[..n] == [replies[0]] + rest[..n - 1];
      if n > 1 {
        ChainedCons(replies[0], rest[..n - 1]);
      }
    }
  }

  lemma ChainedCons<T>(r: Reply<T>, rest: seq<Reply<T>>)
    requires rest != []
    ensures Chained([r] + rest) <==> NextPage(r) != 0 && Chained(rest)
    ensures Ends([r] + rest) <==> NextPage(r) != 0 && Ends(rest)
  {
    var all := [r] + rest;
    assert all[0] == r && forall i :: 0 <= i < |rest| ==> rest[i] == all[i + 1];
  }

  // ---------- Which pages are fetched

  /** The pages asked for grow from one fetch to the next. */
  predicate Growing<T>(replies: seq<Reply<T>>) {
    forall i :: 0 <= i < |replies| - 1 ==> PageAt(replies, i) < NextPage(replies[i])
  }

  lemma {:induction false} PagesGrow<T>(replies: seq<Reply<T>>, i: nat, j: nat)
    requires Growing(replies) && i <= j < |replies|
    ensures PageAt(replies, j) - PageAt(replies, i) >= j - i
    decreases j
  {
    if i < j {
      var before := j - 1;
      assert PageAt(replies, before) < NextPage(replies[before]) == PageAt(replies, j);
      PagesGrow(replies, i, before);
    }
  }

  /** A listing whose page numbers only grow fetches no page twice. */
  lemma GrowingPagesDistinct<T>(replies: seq<Reply<T>>)
    requires Growing(replies)
    ensures Distinct(Pages(replies))
  {
    forall i, j | 0 <= i < j < |replies|
      ensures Pages(replies)[i] != Pages(replies)[j]
    {
      PagesGrow(replies, i, j);
    }
  }

  /** If fetches i and j ask for the same page, both replies name the same next page. */
  predicate Alike<T>(replies: seq<Reply<T>>, i: nat, j: nat)
    requires i < |replies| && j < |replies|
  {
    PageAt(replies, i) == PageAt(replies, j) ==> NextPage(replies[i]) == NextPage(replies[j])
  }

  /** Whenever a page is fetched again, it names the same next page again. */
  ghost predicate Steady<T>(replies: seq<Reply<T>>) {
    forall i, j :: 0 <= i < j < |replies| ==> Alike(replies, i, j)
  }

  lemma {:induction false} SteadyNeverReturns<T>(replies: seq<Reply<T>>, i: nat, j: nat)
    requires Ends(replies) && Steady(replies) && i < j < |replies|
    ensures PageAt(replies, i) != PageAt(replies, j)
    decreases |replies| - j
  {
    if PageAt(replies, i) == PageAt(replies, j) {
      assert Alike(replies, i, j);
      SteadyNeverReturns(replies, i + 1, j + 1);
    }
  }

  /** A listing that ends has fetched each page once exactly when no page was answered in two ways. */
  lemma EachPageOnceIffSteady<T>(replies: seq<Reply<T>>)
    requires Ends(replies)
    ensures Distinct(Pages(replies)) <==> Steady(replies)
  {
    if Steady(replies) {
      forall i, j | 0 <= i < j < |replies|
        ensures Pages(replies)[i] != Pages(replies)[j]
      {
        SteadyNeverReturns(replies, i, j);
      }
    } else {
      var i, j :| 0 <= i < j < |replies| && !Alike(replies, i, j);
      assert Pages(replies)[i] == Pages(replies)[j];
    }
  }

  /** For instance a server that changes its mind: page 1 is fetched and listed twice. */
  lemma PageFetchedTwice<T>(a: seq<T>, b: seq<T>, h: Headers)
    ensures var replies := [Listed(a, Some(Response(2, h))), Listed(b, Some(Response(1, h))), Listed(a, Some(Response(0, h)))];
            Ends(replies) && Pages(replies) == [1, 2, 1] && Items(replies) == a + b + a
  {
    var replies := [Listed(a, Some(Response(2, h))), Listed(b, Some(Response(1, h))), Listed(a, Some(Response(0, h)))];
    assert replies[..0] == [];
    ItemsSnoc(replies, 0);
    ItemsSnoc(replies, 1);
    ItemsSnoc(replies, 2);
    assert replies[..3] == replies;
  }

  /**
   * If the pages named along the way grow and stay within a bound, the loop makes at most that many
   * fetches, and once so many replies have arrived it has stopped.
   */
  lemma GrowingPagesStop<T>(replies: seq<Reply<T>>, bound: int)
    requires var seen := replies[..Fetched(replies)];
             forall i :: 0 <= i < |seen| && NextPage(seen[i]) != 0 ==> PageAt(seen, i) < NextPage(seen[i]) <= bound
    ensures var most := if bound < 1 then 1 else bound;
            Fetched(replies) <= most && (|replies| >= most ==> Ends(replies[..Fetched(replies)]))
  {
    var n := Fetched(replies);
    var seen := replies[..n];
    FetchedIff(replies, n);
    if n > 1 {
      PagesGrow(seen, 0, n - 1);
    }
  }

  // ---------- What is listed

  /** The items of the replies, in order; a failed fetch has none. */
  ghost function Items<T>(replies: seq<Reply<T>>): seq<T> {
    if replies == [] then [] else Items(replies[..|replies| - 1]) + ItemsOf(replies[|replies| - 1])
  }

  lemma ItemsSnoc<T>(replies: seq<Reply<T>>, i: nat)
    requires i < |replies|
    ensures Items(replies[..i + 1]) == Items(replies[..i]) + ItemsOf(replies[i])
  {
    assert replies[..i + 1][..i] == replies[..i];
  }

  datatype Outcome = Complete | Error | StillFetching

  /**
   * The outcome of these replies: an error exactly when the last one is a failure, completion exactly
   * when all are pages and the last names no further one, and neither while all name a further one.
   */
  ghost predicate Concludes<T>(seen: seq<Reply<T>>, outcome: Outcome) {
    && (outcome == Error <==> seen != [] && (seen[|seen| - 1].Failed? || seen[|seen| - 1].Refused?))
    && (outcome == Complete <==> Ends(seen) && forall i :: 0 <= i < |seen| ==> seen[i].Listed?)
    && (outcome == StillFetching <==> forall i :: 0 <= i < |seen| ==> NextPage(seen[i]) != 0)
  }

  /** How many requests these replies stand for: a refused one, which can only be the last, was never sent. */
  function RequestCount<T>(replies: seq<Reply<T>>): (n: nat)
    ensures n <= |replies|
  {
    if replies != [] && replies[|replies| - 1].Refused? then |replies| - 1 else |replies|
  }

  /** How many of them fed the limiter: all but possibly the last. */
  function AnswerCount<T>(replies: seq<Reply<T>>): (n: nat)
    ensures n <= RequestCount(replies)
  {
    if replies != [] && !Answered(replies[|replies| - 1]) then |replies| - 1 else |replies|
  }

  /** The closure passed to fetchAllPages: wait, fetch, feed the limiter, append. */
  method FetchPage<T>(limiter: RateLimiter, clock: Time, reply: Reply<T>, pace: Pace, all: seq<T>)
    returns (all': seq<T>, ok: bool, e: Option<Exchange>)
    requires limiter.Valid() && clock >= ZERO_TIME
    modifies limiter
    ensures limiter.Valid()
    ensures ok == reply.Listed? && all' == all + ItemsOf(reply)
    ensures e.None? <==> reply.Refused?
    ensures e.Some? ==>
              && clock <= e.value.sent <= e.value.update.first <= e.value.update.second
              && old(Backoff(limiter.history)) <= e.value.sent
              && e.value.update.signals == ReadFrom(reply)
    ensures limiter.history == if Answered(reply) then old(limiter.history) + [e.value.update] else old(limiter.history)
  {
    all' := all;
    var check := clock + pace.thinking;
    var bucket := if reply.Refused? then None else Some(pace.bucket);
    var outcome := limiter.Wait(check, check + pace.arming, pace.late, reply.Refused?, bucket);
    if outcome.ContextError? {
      return all, false, None;
    }
    var first := outcome.at + pace.latency;
    var second := first + pace.reading;
    e := Some(Exchange(outcome.at, Update(ReadFrom(reply), first, second)));
    if reply.Failed? {
      return all, false, e;
    }
    if reply.response.Some? {
      limiter.UpdateFromHeaders(reply.response.value.headers, first, second);
    }
    all', ok := all + reply.items, true;
  }

  /** The first i replies all name a next page. */
  ghost predicate Onward<T>(replies: seq<Reply<T>>, i: nat)
    requires i <= |replies|
  {
    forall j :: 0 <= j < i ==> NextPage(replies[j]) != 0
  }

  lemma OnwardSnoc<T>(replies: seq<Reply<T>>, i: nat)
    requires i < |replies| && Onward(replies, i)
    ensures NextPage(replies[i]) != 0 ==> Onward(replies, i + 1)
    ensures NextPage(replies[i]) == 0 ==> Fetched(replies) == i + 1
    ensures i + 1 == |replies| ==> Fetched(replies) == i + 1
  {
    FetchedIff(replies, i + 1);
  }

  lemma ConcludesHere<T>(replies: seq<Reply<T>>, i: nat)
    requires i < |replies| && Onward(replies, i) && NextPage(replies[i]) == 0
    ensures Concludes(replies[..i + 1], if replies[i].Listed? then Complete else Error)
  {
    var seen := replies[..i + 1];
    assert forall j :: 0 <= j < i ==> seen[j] == replies[j] && NextPage(replies[j]) != 0;
    assert seen[i] == replies[i];
  }

  lemma StillOnward<T>(replies: seq<Reply<T>>)
    requires Onward(replies, |replies|)
    ensures Concludes(replies, StillFetching)
  {
    if replies != [] {
      assert NextPage(replies[|replies| - 1]) != 0;
    }
  }

  lemma PagesSnoc<T>(replies: seq<Reply<T>>, i: nat)
    requires i < |replies|
    ensures Pages(replies[..i + 1]) == Pages(replies[..i]) + [PageAt(replies, i)]
  {
  }

  /** exs are the requests behind these replies: paced, and each answered by its reply. */
  ghost predicate Requested<T>(base: seq<Update>, clock: Time, replies: seq<Reply<T>>, exs: seq<Exchange>) {
    && |exs| == RequestCount(replies)
    && Paced(base, clock, exs)
    && forall i :: 0 <= i < |exs| ==> exs[i].update.signals == ReadFrom(replies[i])
  }

  lemma RequestedSnoc<T>(base: seq<Update>, clock: Time, seen: seq<Reply<T>>, exs: seq<Exchange>, r: Reply<T>, e: Exchange)
    requires |exs| == |seen| && Requested(base, clock, seen, exs) && !r.Refused?
    requires ClockAfter(clock, exs) <= e.sent <= e.update.first <= e.update.second
    requires Backoff(base + UpdatesOf(exs)) <= e.sent && e.update.signals == ReadFrom(r)
    ensures Requested(base, clock, seen + [r], exs + [e])
  {
    ContinuesSnoc(base, clock, 0, exs, e);
  }

  /** The replies so far have been asked for, requested and appended. */
  ghost predicate Progress<T>(base: seq<Update>, clock: Time, seen: seq<Reply<T>>,
                              all: seq<T>, asked: seq<int>, exs: seq<Exchange>) {
    all == Items(seen) && asked == Pages(seen) && Requested(base, clock, seen, exs)
  }

  lemma ProgressSnoc<T>(base: seq<Update>, clock: Time, seen: seq<Reply<T>>, all: seq<T>, asked: seq<int>, exs: seq<Exchange>,
                        r: Reply<T>, e: Option<Exchange>)
    requires Progress(base, clock, seen, all, asked, exs) && |exs| == |seen|
    requires e.None? <==> r.Refused?
    requires e.Some? ==>
               && ClockAfter(clock, exs) <= e.value.sent <= e.value.update.first <= e.value.update.second
               && Backoff(base + UpdatesOf(exs)) <= e.value.sent && e.value.update.signals == ReadFrom(r)
    ensures Progress(base, clock, seen + [r], all + ItemsOf(r), asked + [PageAt(seen, |seen|)], Sent(exs, e))
  {
    ItemsAppend(seen, r);
    PagesAppend(seen, r);
    if e.Some? {
      RequestedSnoc(base, clock, seen, exs, r, e.value);
    } else {
      RefusedSnoc(base, clock, seen, exs, r);
    }
  }

  lemma ItemsAppend<T>(seen: seq<Reply<T>>, r: Reply<T>)
    ensures Items(seen + [r]) == Items(seen) + ItemsOf(r)
  {
    assert (seen + [r])[..|seen|] == seen;
  }

  lemma PagesAppend<T>(seen: seq<Reply<T>>, r: Reply<T>)
    ensures Pages(seen + [r]) == Pages(seen) + [PageAt(seen, |seen|)]
  {
    forall i | 0 <= i <= |seen|
      ensures PageAt(seen + [r], i) == PageAt(seen, i)
    {
    }
  }

  lemma RefusedSnoc<T>(base: seq<Update>, clock: Time, seen: seq<Reply<T>>, exs: seq<Exchange>, r: Reply<T>)
    requires Requested(base, clock, seen, exs) && |exs| == |seen| && r.Refused?
    ensures Requested(base, clock, seen + [r], exs)
  {
  }

  function Sent(exs: seq<Exchange>, e: Option<Exchange>): seq<Exchange> {
    if e.Some? then exs + [e.value] else exs
  }

  /** The limiter has heard of all requests but possibly the last. */
  lemma AnswersSnoc<T>(base: seq<Update>, seen: seq<Reply<T>>, exs: seq<Exchange>, r: Reply<T>, e: Option<Exchange>)
    requires |exs| == |seen| && (e.None? <==> r.Refused?)
    ensures AnswerCount(seen + [r]) <= |Sent(exs, e)|
    ensures base + UpdatesOf(Sent(exs, e)[..AnswerCount(seen + [r])]) ==
            if Answered(r) then base + UpdatesOf(exs) + [e.value.update] else base + UpdatesOf(exs)
    ensures Answered(r) ==> base + UpdatesOf(Sent(exs, e)) == base + UpdatesOf(exs) + [e.value.update]
  {
    if e.Some? {
      TakeFront(exs, e.value);
      UpdatesOfSnoc(base, exs, e.value);
    } else {
      assert exs[..|exs|] == exs;
    }
  }

  /** One turn of the loop, which has heard of every reply so far. */
  method NextFetch<T>(limiter: RateLimiter, clock: Time, ghost seen: seq<Reply<T>>, reply: Reply<T>, page: int, pace: Pace,
                      all: seq<T>, asked: seq<int>, exs: seq<Exchange>, ghost base: seq<Update>)
    returns (all': seq<T>, asked': seq<int>, exs': seq<Exchange>, ok: bool)
    requires limiter.Valid() && clock >= ZERO_TIME && page == PageAt(seen, |seen|)
    requires Progress(base, clock, seen, all, asked, exs) && |exs| == |seen|
    requires limiter.history == base + UpdatesOf(exs)
    modifies limiter
    ensures limiter.Valid() && ok == reply.Listed?
    ensures Progress(base, clock, seen + [reply], all', asked', exs')
    ensures AnswerCount(seen + [reply]) <= |exs'|
    ensures limiter.history == base + UpdatesOf(exs'[..AnswerCount(seen + [reply])])
    ensures NextPage(reply) != 0 ==> |exs'| == |seen| + 1 && limiter.history == base + UpdatesOf(exs')
  {
    ClockAdvances(Backoff(base), clock, 0, exs);
    var e;
    all', ok, e := FetchPage(limiter, ClockAfter(clock, exs), reply, pace, all);
    asked' := asked + [page];
    ProgressSnoc(base, clock, seen, all, asked, exs, reply, e);
    AnswersSnoc(base, seen, exs, reply, e);
    exs' := if e.Some? then exs + [e.value] else exs;
  }

  /**
   * ListProjects and its siblings: fetchAllPages over that closure, against any sequence of replies.
   * The result is every listed item in order; a failed fetch ends the listing with the items of the
   * earlier pages; the requests are paced and every response but a missing last one feeds the limiter.
   */
  method ListAll<T>(limiter: RateLimiter, clock: Time, replies: seq<Reply<T>>, paces: nat -> Pace)
    returns (all: seq<T>, outcome: Outcome, asked: seq<int>, exs: seq<Exchange>)
    requires limiter.Valid() && clock >= ZERO_TIME
    modifies limiter
    ensures limiter.Valid()
    ensures var seen := replies[..Fetched(replies)];
            && Progress(old(limiter.history), clock, seen, all, asked, exs)
            && limiter.history == old(limiter.history) + UpdatesOf(exs[..AnswerCount(seen)])
    ensures Concludes(replies[..Fetched(replies)], outcome)
  {
    ghost var base, seen := limiter.history, replies[..0];
    all, asked, exs := [], [], [];
    var page, i := 1, 0;
    while i < |replies|
      invariant 0 <= i <= |replies| && |exs| == i && seen == replies[..i] && page == PageAt(seen, i)
      invariant Onward(replies, i) && (i == |replies| ==> Fetched(replies) == i)
      invariant Progress(base, clock, seen, all, asked, exs)
      invariant limiter.Valid() && limiter.history == base + UpdatesOf(exs)
    {
      OnwardSnoc(replies, i);
      var ok;
      PrefixSnoc(replies, i);
      all, asked, exs, ok := NextFetch(limiter, clock, seen, replies[i], page, paces(i), all, asked, exs, base);
      seen := seen + [replies[i]];
      if NextPage(replies[i]) == 0 {
        ConcludesHere(replies, i);
      }
      if !ok {
        return all, Error, asked, exs;
      }
      if NextPage(replies[i]) == 0 {
        return all, Complete, asked, exs;
      }
      page, i := NextPage(replies[i]), i + 1;
    }
    assert exs[..|exs|] == exs;
    StillOnward(replies);
    assert replies[..|replies|] == replies;
    outcome := StillFetching;
  }

  /**
   * A listing that starts when the limiter has just seen a response leaving r < 10 requests, and whose
   * own responses count the window down, keeps its k-th request until its k-th share of the window and
   * sends no more than r before the reset. A request that fails counts like any other.
   */
  method ThrottledListing<T>(limiter: RateLimiter, clock: Time, replies: seq<Reply<T>>, paces: nat -> Pace,
                             ghost u: Update, ghost r: int, ghost reset: Time)
    returns (all: seq<T>, outcome: Outcome, exs: seq<Exchange>)
    requires limiter.Valid() && NearlyExhausted(limiter.history, u, r, reset) && u.second <= clock
    requires forall i :: 0 <= i < Fetched(replies) - 1 && i < r ==> Reports(ReadFrom(replies[i]), r - 1 - i, reset)
    modifies limiter
    ensures all == Items(replies[..Fetched(replies)]) && Concludes(replies[..Fetched(replies)], outcome)
    ensures |exs| == RequestCount(replies[..Fetched(replies)])
    ensures Spread(exs, u, r, reset)
  {
    var asked;
    all, outcome, asked, exs := ListAll(limiter, clock, replies, paces);
    PacedIsSpread(old(limiter.history), clock, u, r, reset, exs);
  }
}
