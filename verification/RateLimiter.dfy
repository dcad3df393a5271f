/** internal/gitlab/ratelimiter.go: back-off derived from GitLab's rate-limit response headers. */
module RateLimiting {
  import opened Prelude
  import Decimal

  /** Go's zero time.Time (year 1): "no back-off yet". */
  const ZERO_TIME: Time := -UNIX_TO_INTERNAL * SECOND

  /** Seconds from year 1, where time.Time counts from, to the Unix epoch. */
  const UNIX_TO_INTERNAL: int := 62_135_596_800

  /** The instant of time.Unix(epoch, 0), which counts its seconds from year 1 in an int64. */
  function Unix(epoch: int): Time {
    (Wrap64(epoch + UNIX_TO_INTERNAL) - UNIX_TO_INTERNAL) * SECOND
  }

  /** The last epoch that time.Unix can represent. */
  const LAST_EPOCH: int := MAX_INT64 - UNIX_TO_INTERNAL

  /** The three recognised headers; "" is an absent header. */
  datatype Headers = Headers(retryAfter: string, remaining: string, reset: string)

  /** The headers that parse as integers. */
  datatype Signals = Signals(retryAfter: Option<int>, remaining: Option<int>, epoch: Option<int>)

  function Parse(h: Headers): Signals {
    Signals(Decimal.Atoi(h.retryAfter), Decimal.Atoi(h.remaining), Decimal.Atoi(h.reset))
  }

  /** One call of UpdateFromHeaders: what the headers say and the two clock readings it may take. */
  datatype Update = Update(signals: Signals, first: Time, second: Time)

  /** The delay of a usable Retry-After header, in seconds. */
  function RetryAfter(g: Signals): Option<int> {
    if g.retryAfter.Some? && g.retryAfter.value > 0 then g.retryAfter else None
  }

  /** The RateLimit-Remaining value an update records, if any. */
  function Remaining(g: Signals): Option<int> {
    if RetryAfter(g).Some? then None else g.remaining
  }

  /** The RateLimit-Reset instant an update records, if any. */
  function ResetAt(g: Signals): Option<Time> {
    if Remaining(g).Some? && g.epoch.Some? then Some(Unix(g.epoch.value)) else None
  }

  /** Rounded-up quotient of a positive span: math.Ceil(span / parts). */
  function CeilDiv(span: int, parts: int): (q: int)
    requires span > 0 && parts > 0
    ensures 0 < q <= span
  {
    CeilDivBounds(span, parts);
    (span + parts - 1) / parts
  }

  lemma CeilDivBounds(span: int, parts: int)
    requires span > 0 && parts > 0
    ensures var q := (span + parts - 1) / parts;
            (q - 1) * parts < span <= q * parts && 0 < q <= span
  {
    var top := span + parts - 1;
    DivisionBounds(top, parts);
    var q := top / parts;
    assert (q - 1) * parts == q * parts - parts;
    if q <= 0 {
      MulMonotone(q, 0, parts);
    } else if q > span {
      MulMonotone(1, parts, q - 1);
    }
  }

  lemma DivisionBounds(n: int, parts: int)
    requires parts > 0
    ensures (n / parts) * parts <= n < (n / parts) * parts + parts
  {
  }

  /** The instant until which one update asks callers to back off, if it asks at all. */
  function Deadline(u: Update): Option<Time> {
    match RetryAfter(u.signals)
    case Some(sec) => Some(u.first + Wrap64(sec * SECOND))
    case None =>
      match ResetAt(u.signals)
      case None => None
      case Some(reset) =>
        var remaining := Remaining(u.signals).value;
        if remaining <= 0 then Some(reset)
        else if remaining < 10 && reset > u.first then
          Some(u.second + CeilDiv(reset - u.first, remaining + 1))
        else None
  }

  /** The later of the current back-off and the one an update asks for. */
  function Raise(backoff: Time, u: Update): (raised: Time)
    ensures raised >= backoff
  {
    match Deadline(u)
    case Some(until) => if until > backoff then until else backoff
    case None => backoff
  }

  function Later(a: Time, b: Time): Time {
    if b > a then b else a
  }

  /** after is `before` moved to delay from now, the least delay of which remaining + 1 fill the rest of the window. */
  predicate MovedByShare(delay: int, g: Signals, first: Time, second: Time, before: Time, after: Time) {
    && g.remaining.Some? && g.epoch.Some?
    && var (span, parts) := (Unix(g.epoch.value) - first, g.remaining.value + 1);
       (delay - 1) * parts < span <= delay * parts && after == Later(before, second + delay)
  }

  /**
   * What one update may do to a back-off, told from the header values alone: a usable Retry-After moves
   * it to that delay from now if that is later; a count that is unknown, without a reset or at least 10
   * leaves it; an exhausted window moves it to the reset if that is later; and a nearly exhausted one
   * leaves it once the reset has passed, and otherwise moves it one share of the window ahead.
   */
  ghost predicate Adjusts(g: Signals, first: Time, second: Time, before: Time, after: Time) {
    && (g.retryAfter.Some? && g.retryAfter.value > 0 ==> after == Later(before, first + Wrap64(g.retryAfter.value * SECOND)))
    && (g.retryAfter.None? || g.retryAfter.value <= 0 ==>
          && (g.remaining.None? || g.epoch.None? || g.remaining.value >= 10 ==> after == before)
          && (g.remaining.Some? && g.epoch.Some? && g.remaining.value <= 0 ==> after == Later(before, Unix(g.epoch.value)))
          && (g.remaining.Some? && g.epoch.Some? && 0 < g.remaining.value < 10 ==>
                if Unix(g.epoch.value) <= first then after == before
                else exists delay :: MovedByShare(delay, g, first, second, before, after)))
  }

  /** Raising a back-off does exactly that, for all header values, clock readings and back-offs. */
  lemma RaiseAdjusts(backoff: Time, u: Update)
    ensures Adjusts(u.signals, u.first, u.second, backoff, Raise(backoff, u))
  {
    var g := u.signals;
    if RetryAfter(g).None? && ResetAt(g).Some? && 0 < g.remaining.value < 10 && ResetAt(g).value > u.first {
      var span, parts := ResetAt(g).value - u.first, g.remaining.value + 1;
      CeilDivBounds(span, parts);
      assert MovedByShare(CeilDiv(span, parts), g, u.first, u.second, backoff, Raise(backoff, u));
    }
  }

  /** Nothing else fits: the header values determine the new back-off. */
  lemma AdjustsDetermines(g: Signals, first: Time, second: Time, before: Time, a: Time, b: Time)
    requires Adjusts(g, first, second, before, a) && Adjusts(g, first, second, before, b)
    ensures a == b
  {
    if (g.retryAfter.None? || g.retryAfter.value <= 0) && g.remaining.Some? && g.epoch.Some?
       && 0 < g.remaining.value < 10 && Unix(g.epoch.value) > first {
      var parts := g.remaining.value + 1;
      var d :| MovedByShare(d, g, first, second, before, a);
      var e :| MovedByShare(e, g, first, second, before, b);
      if d < e {
        MulMonotone(d, e - 1, parts);
      } else if e < d {
        MulMonotone(e, d - 1, parts);
      }
    }
  }

  /** The back-off after a whole history of updates. */
  function Backoff(history: seq<Update>): (backoff: Time)
    ensures backoff >= ZERO_TIME
  {
    if history == [] then ZERO_TIME
    else Raise(Backoff(history[..|history| - 1]), history[|history| - 1])
  }

  /** d is the greatest deadline asked for in history, or ZERO_TIME when none is later than that. */
  ghost predicate GreatestDeadline(history: seq<Update>, d: Time) {
    && d >= ZERO_TIME
    && (forall u :: u in history && Deadline(u).Some? ==> Deadline(u).value <= d)
    && (d == ZERO_TIME || exists u :: u in history && Deadline(u) == Some(d))
  }

  /** Whatever the order of updates, the back-off is the maximum of what each asked for on its own. */
  lemma {:induction false} BackoffIsGreatest(history: seq<Update>)
    ensures GreatestDeadline(history, Backoff(history))
  {
    if history == [] {
    } else {
      var front, last := history[..|history| - 1], history[|history| - 1];
      BackoffIsGreatest(front);
      assert history == front + [last];
      var d := Backoff(history);
      if d == Backoff(front) {
        if d != ZERO_TIME {
          var u :| u in front && Deadline(u) == Some(d);
          assert u in history;
        }
      } else {
        assert last in history && Deadline(last) == Some(d);
      }
    }
  }

  lemma GreatestIsUnique(history: seq<Update>, history': seq<Update>, d: Time, d': Time)
    requires forall u :: u in history <==> u in history'
    requires GreatestDeadline(history, d) && GreatestDeadline(history', d')
    ensures d == d'
  {
  }

  /** Reordering (or repeating) the same updates leaves the same back-off. */
  lemma BackoffIgnoresOrder(history: seq<Update>, history': seq<Update>)
    requires multiset(history) == multiset(history')
    ensures Backoff(history) == Backoff(history')
  {
    BackoffIsGreatest(history);
    BackoffIsGreatest(history');
    forall u
      ensures u in history <==> u in history'
    {
      assert u in history <==> u in multiset(history);
      assert u in history' <==> u in multiset(history');
    }
    GreatestIsUnique(history, history', Backoff(history), Backoff(history'));
  }

  /** The back-off never moves to an earlier instant. */
  lemma {:induction false} BackoffNeverDecreases(history: seq<Update>, more: seq<Update>)
    ensures Backoff(history) <= Backoff(history + more)
  {
    if more == [] {
      assert history + more == history;
    } else {
      BackoffNeverDecreases(history, more[..|more| - 1]);
      assert (history + more)[..|history + more| - 1] == history + more[..|more| - 1];
    }
  }

  /** Signals that report `remaining` requests left in a window ending at `reset`. */
  ghost predicate Reports(g: Signals, remaining: int, reset: Time) {
    Remaining(g) == Some(remaining) && ResetAt(g) == Some(reset)
  }

  /** A server that prints both numbers is understood exactly when both fit the types they are read into. */
  lemma PrintedHeadersReport(remaining: nat, epoch: nat)
    ensures Reports(Parse(Headers("", Decimal.Print(remaining), Decimal.Print(epoch))), remaining, epoch * SECOND)
            <==> remaining <= MAX_INT64 && epoch <= LAST_EPOCH
  {
    Decimal.AtoiInvertsPrint(remaining);
    Decimal.AtoiInvertsPrint(epoch);
    if epoch <= MAX_INT64 {
      UnixExact(epoch);
    }
  }

  lemma UnixExact(epoch: int)
    requires 0 <= epoch <= MAX_INT64
    ensures Unix(epoch) == epoch * SECOND <==> epoch <= LAST_EPOCH
  {
  }

  /**
   * Near exhaustion the deadline is strictly after the second clock reading, overshoots the reset by
   * at most the time between the two readings (not at all if they agree), and adds the least delay
   * of which remaining + 1 cover what is left of the window.
   */
  lemma NearExhaustionDeadline(u: Update, remaining: int, reset: Time)
    requires Reports(u.signals, remaining, reset) && 0 < remaining < 10
    requires u.first <= u.second && u.first < reset
    ensures Deadline(u).Some? && u.second < Deadline(u).value <= reset + (u.second - u.first)
    ensures var delay := Deadline(u).value - u.second;
            (delay - 1) * (remaining + 1) < reset - u.first <= delay * (remaining + 1)
  {
    CeilDivBounds(reset - u.first, remaining + 1);
  }

  /**
   * A Retry-After of sec seconds is honoured to the nanosecond exactly up to the largest
   * time.Duration; a larger value wraps around and yields a different instant.
   */
  lemma RetryAfterHonoured(u: Update, sec: int)
    requires RetryAfter(u.signals) == Some(sec)
    ensures Deadline(u) == Some(u.first + sec * SECOND) <==> sec <= 9_223_372_036
  {
    DeadlineOfRetryAfter(u, sec);
  }

  /** A printed Retry-After is read back when it fits an int, wrapped or not. */
  lemma PrintedRetryAfter(sec: nat)
    requires 0 < sec <= MAX_INT64
    ensures RetryAfter(Parse(Headers(Decimal.Print(sec), "", ""))) == Some(sec)
  {
    Decimal.AtoiInvertsPrint(sec);
  }

  /** A Retry-After in the HTTP-date form, or with any other character beside digits and a sign, is ignored. */
  lemma DateIsNoDelay(headers: Headers, i: nat)
    requires i < |headers.retryAfter| && !Decimal.IsDigit(headers.retryAfter[i])
    requires i > 0 || (headers.retryAfter[0] != '+' && headers.retryAfter[0] != '-')
    ensures RetryAfter(Parse(headers)).None?
    ensures Remaining(Parse(headers)) == Decimal.Atoi(headers.remaining)
  {
    Decimal.AtoiAccepts(headers.retryAfter);
  }

  lemma DeadlineOfRetryAfter(u: Update, sec: int)
    requires RetryAfter(u.signals) == Some(sec)
    ensures Deadline(u) == Some(u.first + Wrap64(sec * SECOND))
  {
  }

  /** For instance 9223372037 seconds, the first value past the limit: the deadline lies centuries in the past. */
  lemma RetryAfterWraps(u: Update)
    requires RetryAfter(u.signals) == Some(9_223_372_037)
    ensures Deadline(u) == Some(u.first - 9_223_372_036_709_551_616)
  {
    DeadlineOfRetryAfter(u, 9_223_372_037);
  }

  /**
   * What one update records: nothing beside a usable Retry-After; the count when it is known; the reset
   * when both are.
   */
  predicate Notes(g: Signals, remaining: int, reset: Time, remaining': int, reset': Time) {
    var skipped := g.retryAfter.Some? && g.retryAfter.value > 0;
    && remaining' == (if skipped || g.remaining.None? then remaining else g.remaining.value)
    && reset' == (if skipped || g.remaining.None? || g.epoch.None? then reset else Unix(g.epoch.value))
  }

  datatype WaitResult = Ready(at: Time) | ContextError

  /** The mutable limiter. The token bucket is an input of Wait. */
  class RateLimiter {
    var headerReset: Time
    var headerRemaining: int
    var backoffUntil: Time
    ghost var history: seq<Update>

    ghost predicate Valid()
      reads this
    {
      backoffUntil == Backoff(history)
    }

    constructor ()
      ensures Valid() && history == []
      ensures headerRemaining == -1 && headerReset == ZERO_TIME
    {
      headerReset := ZERO_TIME;
      headerRemaining := -1;
      backoffUntil := ZERO_TIME;
      history := [];
    }

    method UpdateFromHeaders(headers: Headers, first: Time, second: Time)
      requires Valid() && first <= second
      modifies this
      ensures Valid()
      ensures history == old(history) + [Update(Parse(headers), first, second)]
      ensures Adjusts(Parse(headers), first, second, old(backoffUntil), backoffUntil)
      ensures Notes(Parse(headers), old(headerRemaining), old(headerReset), headerRemaining, headerReset)
    {
      UpdateFromSignals(Parse(headers), first, second);
    }

    method UpdateFromSignals(g: Signals, first: Time, second: Time)
      requires Valid() && first <= second
      modifies this
      ensures Valid()
      ensures history == old(history) + [Update(g, first, second)]
      ensures Adjusts(g, first, second, old(backoffUntil), backoffUntil)
      ensures Notes(g, old(headerRemaining), old(headerReset), headerRemaining, headerReset)
    {
      RaiseAdjusts(backoffUntil, Update(g, first, second));
      history := history + [Update(g, first, second)];
      assert history[..|history| - 1] == old(history);

      if g.retryAfter.Some? && g.retryAfter.value > 0 {
        var until := first + Wrap64(g.retryAfter.value * SECOND);
        if until > backoffUntil {
          backoffUntil := until;
        }
        return;
      }

      if g.remaining.None? {
        return;
      }
      var remaining := g.remaining.value;
      headerRemaining := remaining;

      if g.epoch.None? {
        return;
      }
      headerReset := Unix(g.epoch.value);

      if remaining <= 0 {
        if headerReset > backoffUntil {
          backoffUntil := headerReset;
        }
      } else if remaining < 10 {
        var untilReset := headerReset - first;
        if untilReset > 0 {
          var until := second + CeilDiv(untilReset, remaining + 1);
          if until > backoffUntil {
            backoffUntil := until;
          }
        }
      }
    }

    /**
     * check and arm are the clock readings of time.Now and time.Until; the timer fires `late`
     * after its delay; ctxDone says that the context ended the sleep; bucket is the extra delay of
     * the token bucket, or None when its own wait failed.
     */
    method Wait(check: Time, arm: Time, late: nat, ctxDone: bool, bucket: Option<nat>)
      returns (r: WaitResult)
      requires Valid() && check <= arm
      ensures r.Ready? ==> check <= r.at && (Backoff(history) == ZERO_TIME || Backoff(history) <= r.at)
      ensures var asleep := Backoff(history) != ZERO_TIME && check < Backoff(history);
              if bucket == None || (asleep && ctxDone) then r == ContextError
              else if asleep then
                r.Ready? && r.at - late - bucket.value == if arm < Backoff(history) then Backoff(history) else arm
              else r == Ready(check + bucket.value)
    {
      var passed := check;
      var backoff := backoffUntil;
      if backoff != ZERO_TIME && check < backoff {
        var delay := backoff - arm;
        if ctxDone {
          return ContextError;
        }
        passed := arm + (if delay > 0 then delay else 0) + late;
      }
      match bucket
      case None => r := ContextError;
      case Some(extra) => r := Ready(passed + extra);
    }
  }
}
