/**
 * One client that waits, sends and feeds back response headers in turn, against a server that
 * counts the window down by one per response: the requests that remain are spread over the window.
 */
module Spreading {
  import opened Prelude
  import opened RateLimiting

  /** One later request and the update made from its response. */
  datatype Exchange = Exchange(sent: Time, update: Update)

  /**
   * exs continues a run whose limiter stands at backoff, whose clock has reached `clock` and whose
   * last response left `remaining` requests until `reset`. Any delay may be added anywhere. Once the
   * count has reached zero later responses may say anything, and so may the last one: no request of
   * exs comes after it, so it may also be missing.
   */
  ghost predicate Continues(backoff: Time, clock: Time, remaining: int, reset: Time, exs: seq<Exchange>)
    decreases |exs|
  {
    exs == [] ||
    var e := exs[0];
    && clock <= e.sent <= e.update.first <= e.update.second
    && backoff <= e.sent
    && (remaining > 0 && |exs| > 1 ==> Reports(e.update.signals, remaining - 1, reset))
    && Continues(Raise(backoff, e.update), e.update.second, remaining - 1, reset, exs[1..])
  }

  /** Requests are never sent before the clock or back-off they started from. */
  lemma {:induction false} SentAfter(backoff: Time, clock: Time, remaining: int, reset: Time, exs: seq<Exchange>, k: nat)
    requires Continues(backoff, clock, remaining, reset, exs) && k < |exs|
    ensures exs[k].sent >= clock && exs[k].sent >= backoff
    decreases |exs|
  {
    if k > 0 {
      var e := exs[0];
      SentAfter(Raise(backoff, e.update), e.update.second, remaining - 1, reset, exs[1..], k - 1);
    }
  }

  lemma Swap(a: int, b: int, c: int)
    ensures a * (b * c) == b * (a * c)
  {
  }

  lemma CancelFactor(a: int, b: int, factor: int)
    requires factor > 0 && factor * a >= factor * b
    ensures a >= b
  {
    if a < b {
      MulMonotone(a + 1, b, factor);
      Distribute(factor, a, 1);
    }
  }

  /** The arithmetic of one more request: x later than the next response, which is d after this one. */
  lemma OneMoreShare(r: int, k: int, u: int, d: int, x: int)
    requires 2 <= k <= r + 1
    requires (r + 1) * d >= u
    requires r * x >= (k - 1) * (u - d)
    ensures (r + 1) * (d + x) >= k * u
  {
    var dd, xx, uu := (r + 1) * d, (r + 1) * x, (r + 1) * u;
    // r xx >= (k - 1) (uu - dd)
    Swap(r, r + 1, x);
    MulMonotone((k - 1) * (u - d), r * x, r + 1);
    Swap(r + 1, k - 1, u - d);
    Distribute(r + 1, u, d);
    Distribute(k - 1, uu, dd);
    // r dd >= (r - k + 1) u + (k - 1) dd
    MulMonotone(u, dd, r - k + 1);
    SplitFactor(r, k - 1, dd);
    SplitFactor(r, k - 1, u);
    // hence r (dd + xx) >= (r - k + 1) u + (k - 1) uu == r k u
    Distribute(r, dd, xx);
    Swap(k - 1, r + 1, u);
    TimesR(r, k, u);
    Distribute(r + 1, d, x);
    CancelFactor(dd + xx, k * u, r);
  }

  lemma SplitFactor(r: int, j: int, a: int)
    ensures r * a == (r - j) * a + j * a
  {
  }

  lemma TimesR(r: int, k: int, u: int)
    ensures (r - (k - 1)) * u + (k - 1) * ((r + 1) * u) == r * (k * u)
  {
    var j := k - 1;
    assert (r + 1) * u == r * u + u;
    Distribute(j, r * u, u);
    assert (r - j) * u == r * u - j * u;
    assert k * u == j * u + u;
    Distribute(r, j * u, u);
    Swap(j, r, u);
  }

  lemma FirstShare(backoff: Time, u: Update, r: int, reset: Time, sent: Time)
    requires 0 <= r < 10 && Reports(u.signals, r, reset)
    requires u.first <= u.second && u.first < reset
    requires sent >= Raise(backoff, u)
    ensures (r + 1) * (sent - u.first) >= reset - u.first
  {
    if r > 0 {
      var share := CeilDiv(reset - u.first, r + 1);
      assert Deadline(u) == Some(u.second + share);
      CeilDivBounds(reset - u.first, r + 1);
      MulMonotone(share, sent - u.first, r + 1);
    } else {
      assert Deadline(u) == Some(reset);
    }
  }

  /** Each request waits for its share of what was left of the window at the response before it. */
  ghost predicate TakesShares(t0: Time, r: int, reset: Time, exs: seq<Exchange>)
    decreases |exs|
  {
    exs == [] ||
    var e := exs[0];
    && (r + 1) * (e.sent - t0) >= reset - t0
    && e.sent <= e.update.first
    && (r > 0 && e.update.first < reset ==> TakesShares(e.update.first, r - 1, reset, exs[1..]))
  }

  lemma {:induction false} LoopTakesShares(backoff: Time, u: Update, r: int, reset: Time, exs: seq<Exchange>)
    requires 0 <= r < 10 && Reports(u.signals, r, reset)
    requires u.first <= u.second && u.first < reset
    requires Continues(Raise(backoff, u), u.second, r, reset, exs)
    ensures TakesShares(u.first, r, reset, exs)
    decreases |exs|
  {
    if exs != [] {
      var e := exs[0];
      FirstShare(backoff, u, r, reset, e.sent);
      if r > 0 && e.update.first < reset && |exs| > 1 {
        LoopTakesShares(Raise(backoff, u), e.update, r - 1, reset, exs[1..]);
      }
    }
  }

  lemma {:induction false} SharesAddUp(t0: Time, r: int, reset: Time, exs: seq<Exchange>, k: int)
    requires 0 <= r && t0 < reset && TakesShares(t0, r, reset, exs)
    requires 1 <= k <= |exs| && k <= r + 1
    requires forall i, j :: 0 <= i < j < |exs| ==> exs[i].update.first <= exs[j].sent
    ensures (r + 1) * (exs[k - 1].sent - t0) >= k * (reset - t0)
    decreases |exs|
  {
    var total, e, last := reset - t0, exs[0], exs[k - 1].sent;
    if k == 1 {
    } else if e.update.first < reset {
      var rest := exs[1..];
      assert rest[k - 2] == exs[k - 1];
      SharesAddUp(e.update.first, r - 1, reset, rest, k - 1);
      MulMonotone(e.sent - t0, e.update.first - t0, r + 1);
      OneMoreShare(r, k, total, e.update.first - t0, last - e.update.first);
    } else {
      MulMonotone(total, last - t0, r + 1);
      MulMonotone(k, r + 1, total);
    }
  }

  /**
   * Spreading. A response read at t0 = u.first leaves r < 10 requests for the U = reset - t0 > 0
   * that remain. Then the k-th later request, k <= r + 1, is sent no earlier than t0 + k U / (r + 1).
   */
  lemma RequestsAreSpread(backoff: Time, u: Update, r: int, reset: Time, exs: seq<Exchange>, k: int)
    requires 0 <= r < 10 && Reports(u.signals, r, reset)
    requires u.first <= u.second && u.first < reset
    requires Continues(Raise(backoff, u), u.second, r, reset, exs)
    requires 1 <= k <= |exs| && k <= r + 1
    ensures (r + 1) * (exs[k - 1].sent - u.first) >= k * (reset - u.first)
  {
    LoopTakesShares(backoff, u, r, reset, exs);
    forall i, j | 0 <= i < j < |exs|
      ensures exs[i].update.first <= exs[j].sent
    {
      AnsweredBefore(Raise(backoff, u), u.second, r, reset, exs, i, j);
    }
    SharesAddUp(u.first, r, reset, exs, k);
  }

  /** So at most r requests leave before the window resets, however long the run is. */
  lemma AtMostRemainingBeforeReset(backoff: Time, u: Update, r: int, reset: Time, exs: seq<Exchange>, j: int)
    requires 0 <= r < 10 && Reports(u.signals, r, reset)
    requires u.first <= u.second && u.first < reset
    requires Continues(Raise(backoff, u), u.second, r, reset, exs)
    requires r <= j < |exs|
    ensures exs[j].sent >= reset
  {
    RequestsAreSpread(backoff, u, r, reset, exs, r + 1);
    CancelFactor(exs[r].sent - u.first, reset - u.first, r + 1);
    if r < j {
      AnsweredBefore(Raise(backoff, u), u.second, r, reset, exs, r, j);
      AnswerFollows(Raise(backoff, u), u.second, r, reset, exs, r);
    }
  }

  lemma {:induction false} AnswerFollows(backoff: Time, clock: Time, remaining: int, reset: Time, exs: seq<Exchange>, i: nat)
    requires Continues(backoff, clock, remaining, reset, exs) && i < |exs|
    ensures exs[i].sent <= exs[i].update.first
    decreases |exs|
  {
    if i > 0 {
      var e := exs[0];
      AnswerFollows(Raise(backoff, e.update), e.update.second, remaining - 1, reset, exs[1..], i - 1);
    }
  }

  lemma {:induction false} AnsweredBefore(backoff: Time, clock: Time, remaining: int, reset: Time, exs: seq<Exchange>, i: nat, j: nat)
    requires Continues(backoff, clock, remaining, reset, exs) && i < j < |exs|
    ensures exs[i].update.first <= exs[j].sent
    decreases |exs|
  {
    var e := exs[0];
    if i > 0 {
      AnsweredBefore(Raise(backoff, e.update), e.update.second, remaining - 1, reset, exs[1..], i - 1, j - 1);
    } else {
      SentAfter(Raise(backoff, e.update), e.update.second, remaining - 1, reset, exs[1..], j - 1);
    }
  }

  /**
   * The delays of one request: the client thinks for a while, waits (the timer fires `late`, the token
   * bucket adds a delay), sends, and reads the response headers after a latency; `reading` separates
   * the two clock readings of the update.
   */
  datatype Pace = Pace(thinking: nat, arming: nat, late: nat, bucket: nat, latency: nat, reading: nat)

  datatype Turn = Turn(pace: Pace, headers: Headers)

  lemma BackoffSnoc(history: seq<Update>, u: Update)
    ensures Backoff(history + [u]) == Raise(Backoff(history), u)
  {
    assert (history + [u])[..|history|] == history;
  }

  /** Wait, send, and feed the response back. */
  method TakeTurn(limiter: RateLimiter, clock: Time, t: Turn) returns (e: Exchange)
    requires limiter.Valid() && clock >= ZERO_TIME
    modifies limiter
    ensures limiter.Valid() && limiter.history == old(limiter.history) + [e.update]
    ensures clock <= e.sent <= e.update.first <= e.update.second
    ensures old(Backoff(limiter.history)) <= e.sent
    ensures e.update.signals == Parse(t.headers)
  {
    var check := clock + t.pace.thinking;
    var outcome := limiter.Wait(check, check + t.pace.arming, t.pace.late, false, Some(t.pace.bucket));
    var first := outcome.at + t.pace.latency;
    var second := first + t.pace.reading;
    limiter.UpdateFromHeaders(t.headers, first, second);
    e := Exchange(outcome.at, Update(Parse(t.headers), first, second));
  }

  /** The updates of a run, in order. */
  function UpdatesOf(exs: seq<Exchange>): (us: seq<Update>)
    ensures |us| == |exs|
  {
    Map((e: Exchange) => e.update, exs)
  }

  /** The instant the last response of a run has been looked at. */
  function ClockAfter(clock: Time, exs: seq<Exchange>): Time {
    if exs == [] then clock else exs[|exs| - 1].update.second
  }

  lemma {:induction false} ClockAdvances(backoff: Time, clock: Time, remaining: int, exs: seq<Exchange>)
    requires Continues(backoff, clock, remaining, 0, exs)
    ensures ClockAfter(clock, exs) >= clock
    decreases |exs|
  {
    if exs != [] {
      ClockAdvances(Raise(backoff, exs[0].update), exs[0].update.second, remaining - 1, exs[1..]);
    }
  }

  /** A run of a client that keeps to the back-off, whatever the responses say. */
  ghost predicate Paced(history: seq<Update>, clock: Time, exs: seq<Exchange>) {
    Continues(Backoff(history), clock, 0, 0, exs)
  }

  lemma UpdatesOfCons(history: seq<Update>, exs: seq<Exchange>)
    requires exs != []
    ensures history + UpdatesOf(exs) == history + [exs[0].update] + UpdatesOf(exs[1..])
  {
    assert UpdatesOf(exs) == [exs[0].update] + UpdatesOf(exs[1..]);
  }

  /** A request sent after all the responses before it, and no earlier than they allow, extends the run. */
  lemma {:induction false} ContinuesSnoc(history: seq<Update>, clock: Time, remaining: int, exs: seq<Exchange>, e: Exchange)
    requires remaining <= 0 && Continues(Backoff(history), clock, remaining, 0, exs)
    requires ClockAfter(clock, exs) <= e.sent <= e.update.first <= e.update.second
    requires Backoff(history + UpdatesOf(exs)) <= e.sent
    ensures Continues(Backoff(history), clock, remaining, 0, exs + [e])
    decreases |exs|
  {
    if exs == [] {
      assert history + UpdatesOf(exs) == history;
    } else {
      var u := exs[0].update;
      BackoffSnoc(history, u);
      UpdatesOfCons(history, exs);
      ContinuesSnoc(history + [u], u.second, remaining - 1, exs[1..], e);
      assert (exs + [e])[1..] == exs[1..] + [e];
    }
  }

  /** The responses of a run, apart from the last, count the window down by one each until none is left. */
  ghost predicate ReportsDown(exs: seq<Exchange>, remaining: int, reset: Time) {
    forall i :: 0 <= i < |exs| - 1 && i < remaining ==> Reports(exs[i].update.signals, remaining - 1 - i, reset)
  }

  /** Such a run is one that the spreading theorem speaks about. */
  lemma {:induction false} PacedContinues(backoff: Time, clock: Time, spare: int, remaining: int, reset: Time, exs: seq<Exchange>)
    requires spare <= 0 && Continues(backoff, clock, spare, 0, exs) && ReportsDown(exs, remaining, reset)
    ensures Continues(backoff, clock, remaining, reset, exs)
    decreases |exs|
  {
    if exs != [] {
      var e, rest := exs[0], exs[1..];
      assert forall i :: 0 <= i < |rest| ==> rest[i] == exs[i + 1];
      PacedContinues(Raise(backoff, e.update), e.update.second, spare - 1, remaining - 1, reset, rest);
    }
  }

  lemma UpdatesOfSnoc(base: seq<Update>, exs: seq<Exchange>, e: Exchange)
    ensures base + UpdatesOf(exs + [e]) == base + UpdatesOf(exs) + [e.update]
  {
    assert UpdatesOf(exs + [e]) == UpdatesOf(exs) + [e.update];
  }

  /** exs are the requests of these turns: paced, and each answered with its turn's headers. */
  ghost predicate Taken(history: seq<Update>, clock: Time, turns: seq<Turn>, exs: seq<Exchange>) {
    && |exs| == |turns| && Paced(history, clock, exs)
    && forall i :: 0 <= i < |exs| ==> exs[i].update.signals == Parse(turns[i].headers)
  }

  lemma TakenSnoc(history: seq<Update>, clock: Time, turns: seq<Turn>, exs: seq<Exchange>, t: Turn, e: Exchange)
    requires Taken(history, clock, turns, exs) && e.update.signals == Parse(t.headers)
    requires ClockAfter(clock, exs) <= e.sent <= e.update.first <= e.update.second
    requires Backoff(history + UpdatesOf(exs)) <= e.sent
    ensures Taken(history, clock, turns + [t], exs + [e])
  {
    ContinuesSnoc(history, clock, 0, exs, e);
  }

  method NextTurn(limiter: RateLimiter, clock: Time, ghost before: seq<Turn>, t: Turn, exs: seq<Exchange>, ghost base: seq<Update>)
    returns (exs': seq<Exchange>)
    requires limiter.Valid() && clock >= ZERO_TIME
    requires Taken(base, clock, before, exs) && limiter.history == base + UpdatesOf(exs)
    modifies limiter
    ensures limiter.Valid()
    ensures Taken(base, clock, before + [t], exs') && limiter.history == base + UpdatesOf(exs')
  {
    ClockAdvances(Backoff(base), clock, 0, exs);
    var e := TakeTurn(limiter, ClockAfter(clock, exs), t);
    TakenSnoc(base, clock, before, exs, t, e);
    UpdatesOfSnoc(base, exs, e);
    exs' := exs + [e];
  }

  /** The client's loop over the limiter object keeps to the back-off and feeds every response to the limiter. */
  method TakeTurns(limiter: RateLimiter, clock: Time, turns: seq<Turn>) returns (exs: seq<Exchange>)
    requires limiter.Valid() && clock >= ZERO_TIME
    modifies limiter
    ensures limiter.Valid() && Taken(old(limiter.history), clock, turns, exs)
    ensures limiter.history == old(limiter.history) + UpdatesOf(exs)
  {
    exs := [];
    ghost var base, taken := limiter.history, turns[..0];
    assert base + UpdatesOf(exs) == base;
    for i := 0 to |turns|
      invariant taken == turns[..i]
      invariant limiter.Valid() && limiter.history == base + UpdatesOf(exs)
      invariant Taken(base, clock, taken, exs)
    {
      PrefixSnoc(turns, i);
      exs := NextTurn(limiter, clock, taken, turns[i], exs, base);
      taken := taken + [turns[i]];
    }
    assert taken == turns;
  }

  lemma EarlierClock(backoff: Time, earlier: Time, clock: Time, remaining: int, reset: Time, exs: seq<Exchange>)
    requires earlier <= clock && Continues(backoff, clock, remaining, reset, exs)
    ensures Continues(backoff, earlier, remaining, reset, exs)
  {
  }

  /** Every request of exs waits for its share of the window that u found r requests short of exhaustion. */
  ghost predicate Spread(exs: seq<Exchange>, u: Update, r: int, reset: Time) {
    && (forall k :: 0 <= k < |exs| && k <= r ==> (r + 1) * (exs[k].sent - u.first) >= (k + 1) * (reset - u.first))
    && (forall j :: 0 <= j < |exs| && r <= j ==> exs[j].sent >= reset)
  }

  /** A limiter whose last update u left r < 10 requests until reset. */
  ghost predicate NearlyExhausted(history: seq<Update>, u: Update, r: int, reset: Time) {
    && history != [] && history[|history| - 1] == u
    && 0 <= r < 10 && Reports(u.signals, r, reset)
    && ZERO_TIME <= u.first <= u.second && u.first < reset
  }

  /** A client that keeps to the back-off after such an update, and is counted down by its responses, is spread. */
  lemma PacedIsSpread(history: seq<Update>, clock: Time, u: Update, r: int, reset: Time, exs: seq<Exchange>)
    requires NearlyExhausted(history, u, r, reset) && u.second <= clock
    requires Paced(history, clock, exs) && ReportsDown(exs, r, reset)
    ensures Spread(exs, u, r, reset)
  {
    var before := Backoff(history[..|history| - 1]);
    PacedContinues(Backoff(history), clock, 0, r, reset, exs);
    EarlierClock(Backoff(history), u.second, clock, r, reset, exs);
    forall k | 0 <= k < |exs| && k <= r
      ensures (r + 1) * (exs[k].sent - u.first) >= (k + 1) * (reset - u.first)
    {
      RequestsAreSpread(before, u, r, reset, exs, k + 1);
    }
    forall j | 0 <= j < |exs| && r <= j
      ensures exs[j].sent >= reset
    {
      AtMostRemainingBeforeReset(before, u, r, reset, exs, j);
    }
  }

  /**
   * End to end on the limiter object: once it has seen a response leaving r < 10 requests, however
   * the client's delays fall, its k-th later request waits for its k-th share of the window.
   */
  method ThrottledClient(limiter: RateLimiter, turns: seq<Turn>, ghost u: Update, ghost r: int, ghost reset: Time, clock: Time)
    returns (exs: seq<Exchange>)
    requires limiter.Valid() && NearlyExhausted(limiter.history, u, r, reset) && u.second <= clock
    requires forall i :: 0 <= i < |turns| - 1 && i < r ==> Reports(Parse(turns[i].headers), r - 1 - i, reset)
    modifies limiter
    ensures limiter.Valid() && |exs| == |turns|
    ensures Spread(exs, u, r, reset)
  {
    exs := TakeTurns(limiter, clock, turns);
    PacedIsSpread(old(limiter.history), clock, u, r, reset, exs);
  }
}
