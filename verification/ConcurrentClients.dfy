/**
 * Any number of goroutines sharing one RateLimiter: each waits, sends a request and feeds the
 * response headers back. Wait copies backoffUntil under the mutex but checks, arms and sleeps
 * without it, so a later update can overtake a client that already holds an old copy.
 */
module ConcurrentClients {
  import opened Prelude
  import opened RateLimiting

  /** Where one client is. */
  datatype Phase =
    | Idle
    | Holding(copy: Time)                        // backoffUntil copied, time.Now not yet read
    | Arming(copy: Time)                         // found Now before the copy, time.Until not yet read
    | Sleeping(wake: Time)                       // in time.After
    | Past                                       // beyond the header back-off, at the token bucket
    | InFlight
    | Updating(signals: Signals, first: Time)    // inside UpdateFromHeaders, holding the mutex

  datatype System = System(now: Time, backoff: Time, mutex: Option<nat>, clients: seq<Phase>,
                           history: seq<Update>)

  datatype Step =
    | Advance(to: Time)
    | Copy(c: nat)
    | Check(c: nat)
    | Arm(c: nat)
    | Wake(c: nat)
    | GiveUp(c: nat)                             // the context ends a sleep or the token-bucket wait
    | Send(c: nat)
    | Lost(c: nat)                               // the request fails: no headers to look at
    | BeginUpdate(c: nat, signals: Signals)
    | EndUpdate(c: nat)

  predicate Enabled(s: System, a: Step) {
    if a.Advance? then a.to >= s.now
    else
      && a.c < |s.clients|
      && var p := s.clients[a.c];
         match a
         case Copy(_) => p.Idle? && s.mutex == None
         case Check(_) => p.Holding?
         case Arm(_) => p.Arming?
         case Wake(_) => p.Sleeping? && s.now >= p.wake
         case GiveUp(_) => p.Sleeping? || p.Past?
         case Send(_) => p.Past?
         case Lost(_) => p.InFlight?
         case BeginUpdate(_, _) => p.InFlight? && s.mutex == None
         case EndUpdate(_) => p.Updating? && s.mutex == Some(a.c)
         case Advance(_) => true
  }

  function Move(s: System, c: nat, p: Phase): System
    requires c < |s.clients|
  {
    s.(clients := s.clients[c := p])
  }

  function Apply(s: System, a: Step): System
    requires Enabled(s, a)
  {
    match a
    case Advance(to) => s.(now := to)
    case Copy(c) => Move(s, c, Holding(s.backoff))
    case Check(c) =>
      var copy := s.clients[c].copy;
      Move(s, c, if copy != ZERO_TIME && s.now < copy then Arming(copy) else Past)
    case Arm(c) =>
      var delay := s.clients[c].copy - s.now;
      Move(s, c, Sleeping(s.now + if delay > 0 then delay else 0))
    case Wake(c) => Move(s, c, Past)
    case GiveUp(c) => Move(s, c, Idle)
    case Send(c) => Move(s, c, InFlight)
    case Lost(c) => Move(s, c, Idle)
    case BeginUpdate(c, g) => Move(s, c, Updating(g, s.now)).(mutex := Some(c))
    case EndUpdate(c) =>
      var u := Update(s.clients[c].signals, s.clients[c].first, s.now);
      Move(s, c, Idle).(mutex := None, backoff := Raise(s.backoff, u), history := s.history + [u])
  }

  predicate Runs(s: System, steps: seq<Step>)
    decreases |steps|
  {
    steps == [] || (Enabled(s, steps[0]) && Runs(Apply(s, steps[0]), steps[1..]))
  }

  function After(s: System, steps: seq<Step>): System
    requires Runs(s, steps)
    decreases |steps|
  {
    if steps == [] then s else After(Apply(s, steps[0]), steps[1..])
  }

  function Initial(clients: nat, now: Time): System {
    System(now, ZERO_TIME, None, seq(clients, _ => Idle), [])
  }

  /** The limiter's state always is the one its own update history explains. */
  ghost predicate Consistent(s: System) {
    && s.backoff == Backoff(s.history)
    && (forall u :: u in s.history ==> u.first <= u.second <= s.now)
    && (forall c :: 0 <= c < |s.clients| && s.clients[c].Updating? ==>
          s.mutex == Some(c) && s.clients[c].first <= s.now)
  }

  lemma StepConsistent(s: System, a: Step)
    requires Consistent(s) && Enabled(s, a)
    ensures Consistent(Apply(s, a))
    ensures Apply(s, a).backoff >= s.backoff
  {
    var s' := Apply(s, a);
    if a.EndUpdate? {
      assert s'.history[..|s'.history| - 1] == s.history;
    }
  }

  /** In every reachable state the back-off is the maximum over all completed updates; it only grows. */
  lemma {:induction false} RunConsistent(s: System, steps: seq<Step>)
    requires Consistent(s) && Runs(s, steps)
    ensures Consistent(After(s, steps))
    ensures After(s, steps).backoff >= s.backoff
    decreases |steps|
  {
    if steps == [] {
    } else {
      StepConsistent(s, steps[0]);
      RunConsistent(Apply(s, steps[0]), steps[1..]);
    }
  }

  // ---------- Nobody sleeps too long

  /** The client neither holds nor sleeps towards an instant later than the back-off, unless that has passed. */
  predicate InTime(p: Phase, backoff: Time, now: Time) {
    match p
    case Holding(copy) => copy <= backoff
    case Arming(copy) => copy <= backoff
    case Sleeping(wake) => wake <= backoff || wake <= now
    case _ => true
  }

  ghost predicate AllInTime(s: System) {
    forall c :: 0 <= c < |s.clients| ==> InTime(s.clients[c], s.backoff, s.now)
  }

  /** A client that arms its timer before the copied back-off wakes at exactly that instant, otherwise at once. */
  lemma ArmsForCopy(s: System, c: nat)
    requires Enabled(s, Arm(c))
    ensures var copy := s.clients[c].copy;
            Apply(s, Arm(c)).clients[c] == Sleeping(if s.now < copy then copy else s.now)
  {
  }

  lemma StepInTime(s: System, a: Step)
    requires AllInTime(s) && Enabled(s, a)
    ensures AllInTime(Apply(s, a))
  {
  }

  lemma {:induction false} RunInTime(s: System, steps: seq<Step>)
    requires AllInTime(s) && Runs(s, steps)
    ensures AllInTime(After(s, steps))
    decreases |steps|
  {
    if steps != [] {
      StepInTime(s, steps[0]);
      RunInTime(Apply(s, steps[0]), steps[1..]);
    }
  }

  /** So in every reachable state no client sleeps past the back-off that is then in force. */
  lemma NobodyOversleeps(clients: nat, now: Time, steps: seq<Step>, c: nat)
    requires Runs(Initial(clients, now), steps) && c < |After(Initial(clients, now), steps).clients|
    ensures var s := After(Initial(clients, now), steps);
            s.clients[c].Sleeping? ==> s.clients[c].wake <= s.backoff || s.clients[c].wake <= s.now
  {
    RunInTime(Initial(clients, now), steps);
    var s := After(Initial(clients, now), steps);
    assert InTime(s.clients[c], s.backoff, s.now);
  }

  /** Clients that hold a copy or a wake-up time earlier than d. */
  predicate HoldsEarlier(p: Phase, d: Time) {
    (p.Holding? && p.copy < d) || (p.Arming? && p.copy < d) || (p.Sleeping? && p.wake < d)
  }

  ghost function Overtaken(s: System, d: Time): set<nat> {
    set c: nat | c < |s.clients| && HoldsEarlier(s.clients[c], d)
  }

  /** Clients inside Wait that have already copied backoffUntil. */
  ghost function Readers(s: System): set<nat> {
    set c: nat | c < |s.clients| && (s.clients[c].Holding? || s.clients[c].Arming? || s.clients[c].Sleeping?)
  }

  /** The client that this step takes past the header back-off, if any. */
  function Passes(s: System, a: Step): Option<nat>
    requires Enabled(s, a)
  {
    match a
    case Check(c) => if Apply(s, a).clients[c].Past? then Some(c) else None
    case Wake(c) => Some(c)
    case _ => None
  }

  /** The clients that get past the header back-off before instant d, in order. */
  ghost function EarlyPasses(s: System, steps: seq<Step>, d: Time): seq<nat>
    requires Runs(s, steps)
    decreases |steps|
  {
    if steps == [] then []
    else
      var passed := Passes(s, steps[0]);
      (if passed.Some? && s.now < d then [passed.value] else [])
      + EarlyPasses(Apply(s, steps[0]), steps[1..], d)
  }

  lemma StepOvertaken(s: System, a: Step, d: Time)
    requires Enabled(s, a)
    requires s.backoff >= d > ZERO_TIME
    ensures Apply(s, a).backoff >= d
    ensures Overtaken(Apply(s, a), d) <= Overtaken(s, d)
    ensures Passes(s, a).Some? && s.now < d ==>
              && Passes(s, a).value in Overtaken(s, d)
              && Passes(s, a).value !in Overtaken(Apply(s, a), d)
  {
    var s' := Apply(s, a);
    forall c | c in Overtaken(s', d)
      ensures c in Overtaken(s, d)
    {
      if !a.Advance? && a.c == c {
        assert s'.clients[c] != s.clients[c];
      }
    }
  }

  /**
   * Once the back-off stands at d, the clients that get past it before d are pairwise distinct and
   * were all holding an earlier copy at the start: nobody who copies it later passes before d.
   */
  lemma {:induction false} OnlyOvertakenPassEarly(s: System, steps: seq<Step>, d: Time)
    requires Runs(s, steps)
    requires s.backoff >= d > ZERO_TIME
    ensures Distinct(EarlyPasses(s, steps, d))
    ensures forall c :: c in EarlyPasses(s, steps, d) ==> c in Overtaken(s, d)
    decreases |steps|
  {
    if steps == [] {
    } else {
      var a, s' := steps[0], Apply(s, steps[0]);
      StepOvertaken(s, a, d);
      OnlyOvertakenPassEarly(s', steps[1..], d);
      var passed := Passes(s, a);
      var rest := EarlyPasses(s', steps[1..], d);
      if passed.Some? && s.now < d {
        assert passed.value !in rest;
        assert EarlyPasses(s, steps, d) == [passed.value] + rest;
      } else {
        assert EarlyPasses(s, steps, d) == rest;
      }
    }
  }

  /**
   * Concurrent back-off safety. When an update raises the deadline to d, then over every later
   * interleaving at most as many requests are let past before d as there were clients that had
   * already copied the old deadline, each at most once.
   */
  lemma UpdateHoldsBackEveryoneElse(s: System, c: nat, steps: seq<Step>)
    requires Consistent(s) && Enabled(s, EndUpdate(c))
    requires Apply(s, EndUpdate(c)).backoff > s.backoff
    requires Runs(Apply(s, EndUpdate(c)), steps)
    ensures var s' := Apply(s, EndUpdate(c));
            var early := EarlyPasses(s', steps, s'.backoff);
            && Distinct(early)
            && (forall e :: e in early ==> e in Readers(s))
            && |early| <= |Readers(s)|
  {
    var s' := Apply(s, EndUpdate(c));
    OnlyOvertakenPassEarly(s', steps, s'.backoff);
    var early := EarlyPasses(s', steps, s'.backoff);
    forall e | e in early
      ensures e in Readers(s)
    {
      assert e in Overtaken(s', s'.backoff);
    }
    DistinctLength(early, Readers(s));
  }

  // ---------- The bound is met

  lemma {:induction false} Extend(s: System, steps: seq<Step>, a: Step, d: Time)
    requires Runs(s, steps) && Enabled(After(s, steps), a)
    ensures Runs(s, steps + [a]) && After(s, steps + [a]) == Apply(After(s, steps), a)
    ensures var (end, passed) := (After(s, steps), Passes(After(s, steps), a));
            EarlyPasses(s, steps + [a], d) ==
            EarlyPasses(s, steps, d) + if passed.Some? && end.now < d then [passed.value] else []
    decreases |steps|
  {
    if steps == [] {
      assert [a][1..] == [];
    } else {
      assert (steps + [a])[1..] == steps[1..] + [a];
      Extend(Apply(s, steps[0]), steps[1..], a, d);
    }
  }

  /** Client 0 has its request in flight; the first `copied` of the n others hold the zero back-off. */
  function Crowd(n: nat, now: Time, copied: nat): System {
    System(now, ZERO_TIME, None,
           seq(n + 1, c requires 0 <= c <= n => if c == 0 then InFlight else if c <= copied then Holding(ZERO_TIME) else Idle), [])
  }

  lemma {:induction false} Gather(n: nat, now: Time, copied: nat) returns (steps: seq<Step>)
    requires copied <= n
    ensures Runs(Initial(n + 1, now), steps) && After(Initial(n + 1, now), steps) == Crowd(n, now, copied)
  {
    var s := Initial(n + 1, now);
    if copied == 0 {
      steps := [];
      Extend(s, [], Copy(0), now);
      Extend(s, [Copy(0)], Check(0), now);
      Extend(s, [Copy(0), Check(0)], Send(0), now);
      steps := [Copy(0), Check(0), Send(0)];
      assert [] + [Copy(0)] + [Check(0)] + [Send(0)] == steps;
      assert After(s, steps).clients == Crowd(n, now, 0).clients;
    } else {
      var front := Gather(n, now, copied - 1);
      Extend(s, front, Copy(copied), now);
      steps := front + [Copy(copied)];
      assert After(s, steps).clients == Crowd(n, now, copied).clients;
    }
  }

  /** Client 0's update has raised the back-off to d; the first `past` of the n others have gone past it. */
  function Overtaking(n: nat, now: Time, u: Update, d: Time, past: nat): System {
    System(now, d, None,
           seq(n + 1, c requires 0 <= c <= n => if c == 0 then Idle else if c <= past then Past else Holding(ZERO_TIME)), [u])
  }

  function FromOne(n: nat): (cs: seq<nat>)
    ensures |cs| == n
  {
    seq(n, i requires 0 <= i < n => i + 1)
  }

  lemma {:induction false} PassBy(n: nat, now: Time, u: Update, d: Time, past: nat) returns (steps: seq<Step>)
    requires past <= n && now < d
    ensures Runs(Overtaking(n, now, u, d, 0), steps)
    ensures After(Overtaking(n, now, u, d, 0), steps) == Overtaking(n, now, u, d, past)
    ensures EarlyPasses(Overtaking(n, now, u, d, 0), steps, d) == FromOne(past)
  {
    var s := Overtaking(n, now, u, d, 0);
    if past == 0 {
      steps := [];
    } else {
      var front := PassBy(n, now, u, d, past - 1);
      Extend(s, front, Check(past), d);
      steps := front + [Check(past)];
      assert After(s, steps).clients == Overtaking(n, now, u, d, past).clients;
      assert FromOne(past) == FromOne(past - 1) + [past];
    }
  }

  /**
   * The bound is met for every number of clients and every update that asks for a back-off: there is a
   * run to such an update with n readers after which all n of them get past before the new deadline.
   */
  lemma AllReadersMayPassEarly(n: nat, now: Time, g: Signals) returns (before: seq<Step>, after: seq<Step>)
    requires now >= ZERO_TIME && Deadline(Update(g, now, now)).Some? && Deadline(Update(g, now, now)).value > now
    ensures Runs(Initial(n + 1, now), before)
    ensures var s := After(Initial(n + 1, now), before);
            && Enabled(s, EndUpdate(0)) && |Readers(s)| == n
            && var s' := Apply(s, EndUpdate(0));
               && s'.backoff == Deadline(Update(g, now, now)).value > s.backoff
               && Runs(s', after)
               && EarlyPasses(s', after, s'.backoff) == FromOne(n)
  {
    var s, u := Initial(n + 1, now), Update(g, now, now);
    var d := Deadline(u).value;
    var front := Gather(n, now, n);
    Extend(s, front, BeginUpdate(0, g), now);
    before := front + [BeginUpdate(0, g)];
    var mid := After(s, before);
    CrowdReaders(n, now, g);
    assert Apply(mid, EndUpdate(0)).clients == Overtaking(n, now, u, d, 0).clients;
    assert Apply(mid, EndUpdate(0)) == Overtaking(n, now, u, d, 0);
    after := PassBy(n, now, u, d, n);
  }

  lemma CrowdReaders(n: nat, now: Time, g: Signals)
    ensures |Readers(Move(Crowd(n, now, n), 0, Updating(g, now)).(mutex := Some(0)))| == n
  {
    var s := Move(Crowd(n, now, n), 0, Updating(g, now)).(mutex := Some(0));
    assert Readers(s) == OneTo(n);
  }

  ghost function OneTo(n: nat): (cs: set<nat>)
    ensures |cs| == n
    ensures forall c :: c in cs <==> 1 <= c <= n
  {
    if n == 0 then {} else OneTo(n - 1) + {n}
  }
}
