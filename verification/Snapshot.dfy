/**
 * Run, Collect and SetProjects of one collector on any number of goroutines. Publishing and copying
 * the observations struct take several memory operations; the read-write mutex makes them atomic.
 */
module SnapshotIsolation {
  import opened Prelude
  import opened MergeRequests

  /** Where one goroutine is; it may serve a Run or a Collect at a time. */
  datatype Goroutine =
    | Free
    | Fetching(snapshot: seq<string>, replies: seq<Reply>)                    // Run, working on its own copy
    | Locked(snapshot: seq<string>, replies: seq<Reply>, obs: Observations)   // holds the write lock
    | HalfWritten(snapshot: seq<string>, replies: seq<Reply>, obs: Observations)
    | ReadLocked                                                              // Collect, holds a read lock
    | HalfCopied(copy: Observations)
  {
    predicate Writing() { Locked? || HalfWritten? }
    predicate Reading() { ReadLocked? || HalfCopied? }
  }

  /** A completed Run. */
  datatype Publication = Publication(snapshot: seq<string>, replies: seq<Reply>, obs: Observations)

  /** A Collect's copy and how many Runs had published when it was made. */
  datatype Scrape = Scrape(obs: Observations, age: nat)

  datatype System = System(projects: seq<string>, observations: Observations, goroutines: seq<Goroutine>,
                           lists: seq<seq<string>>, published: seq<Publication>, scrapes: seq<Scrape>)

  datatype Step =
    | SetProjects(projects: seq<string>)
    | Begin(g: nat)
    | Fetch(g: nat, reply: Reply)
    | Lock(g: nat, obs: Observations)
    | WriteSeries(g: nat)
    | WriteGauges(g: nat)
    | ReadLock(g: nat)
    | CopySeries(g: nat)
    | CopyGauges(g: nat)

  /** The struct whose histogram series come from one value and whose gauges come from another. */
  function Mixed(series: Observations, gauges: Observations): Observations {
    gauges.(timeToMerge := series.timeToMerge, timeToFirstReview := series.timeToFirstReview,
            reviewCycles := series.reviewCycles, changesCount := series.changesCount,
            notesCount := series.notesCount, openDuration := series.openDuration)
  }

  predicate Unwritten(s: System) {
    forall g :: 0 <= g < |s.goroutines| ==> !s.goroutines[g].Writing()
  }

  predicate Unread(s: System) {
    forall g :: 0 <= g < |s.goroutines| ==> !s.goroutines[g].Reading()
  }

  ghost predicate Enabled(s: System, a: Step) {
    if a.SetProjects? then Unwritten(s) && Unread(s)
    else
      && a.g < |s.goroutines|
      && var p := s.goroutines[a.g];
         match a
         case Begin(_) => p.Free? && Unwritten(s)
         case Fetch(_, _) => p.Fetching? && |p.replies| < |p.snapshot|
         case Lock(_, obs) => p.Fetching? && Unwritten(s) && Unread(s) && IsResult(p.snapshot, p.replies, obs)
         case WriteSeries(_) => p.Locked?
         case WriteGauges(_) => p.HalfWritten?
         case ReadLock(_) => p.Free? && Unwritten(s)
         case CopySeries(_) => p.ReadLocked?
         case CopyGauges(_) => p.HalfCopied?
         case SetProjects(_) => true
  }

  ghost function Move(s: System, g: nat, p: Goroutine): System
    requires g < |s.goroutines|
  {
    s.(goroutines := s.goroutines[g := p])
  }

  ghost function Apply(s: System, a: Step): System
    requires Enabled(s, a)
  {
    match a
    case SetProjects(projects) => s.(projects := projects, lists := s.lists + [projects])
    case Begin(g) => Move(s, g, Fetching(s.projects, []))
    case Fetch(g, reply) =>
      var p := s.goroutines[g];
      // A cancelled context returns at once; anything else is one more project done.
      Move(s, g, if reply.Cancelled? then Free else Fetching(p.snapshot, p.replies + [reply]))
    case Lock(g, obs) =>
      var p := s.goroutines[g];
      Move(s, g, Locked(p.snapshot, p.replies, obs))
    case WriteSeries(g) =>
      var p := s.goroutines[g];
      Move(s, g, HalfWritten(p.snapshot, p.replies, p.obs)).(observations := Mixed(p.obs, s.observations))
    case WriteGauges(g) =>
      var p := s.goroutines[g];
      Move(s, g, Free).(observations := Mixed(s.observations, p.obs),
                        published := s.published + [Publication(p.snapshot, p.replies, p.obs)])
    case ReadLock(g) => Move(s, g, ReadLocked)
    case CopySeries(g) => Move(s, g, HalfCopied(s.observations))
    case CopyGauges(g) =>
      var scrape := Scrape(Mixed(s.goroutines[g].copy, s.observations), |s.published|);
      Move(s, g, Free).(scrapes := s.scrapes + [scrape])
  }

  ghost predicate Runs(s: System, steps: seq<Step>)
    decreases |steps|
  {
    steps == [] || (Enabled(s, steps[0]) && Runs(Apply(s, steps[0]), steps[1..]))
  }

  ghost function After(s: System, steps: seq<Step>): System
    requires Runs(s, steps)
    decreases |steps|
  {
    if steps == [] then s else After(Apply(s, steps[0]), steps[1..])
  }

  ghost function Initial(projects: seq<string>, n: nat): System {
    System(projects, NO_OBSERVATIONS, seq(n, _ => Free), [projects], [], [])
  }

  /** What is visible after the first n publications. */
  ghost function Visible(published: seq<Publication>, n: nat): Observations
    requires n <= |published|
  {
    if n == 0 then NO_OBSERVATIONS else published[n - 1].obs
  }

  /** A publication is the whole result of a cycle over a list the collector really had. */
  ghost predicate Genuine(s: System, p: Publication) {
    IsResult(p.snapshot, p.replies, p.obs) && p.snapshot in s.lists
  }

  ghost predicate GoroutineInv(s: System, p: Goroutine) {
    var latest := Visible(s.published, |s.published|);
    match p
    case Free => true
    case Fetching(snapshot, replies) => snapshot in s.lists && forall i :: 0 <= i < |replies| ==> !replies[i].Cancelled?
    case Locked(snapshot, replies, obs) => Genuine(s, Publication(snapshot, replies, obs)) && s.observations == latest
    case HalfWritten(snapshot, replies, obs) =>
      Genuine(s, Publication(snapshot, replies, obs)) && s.observations == Mixed(obs, latest)
    case ReadLocked => s.observations == latest
    case HalfCopied(copy) => s.observations == latest && copy == latest
  }

  /** A writer is alone. */
  ghost predicate Exclusive(s: System) {
    forall g, h :: 0 <= g < |s.goroutines| && 0 <= h < |s.goroutines| && g != h && s.goroutines[g].Writing()
      ==> !s.goroutines[h].Writing() && !s.goroutines[h].Reading()
  }

  /** Scrapes show whole publications (or the initial value) and never go backwards. */
  ghost predicate ScrapesInv(s: System) {
    && (forall i :: 0 <= i < |s.scrapes| ==>
          s.scrapes[i].age <= |s.published| && s.scrapes[i].obs == Visible(s.published, s.scrapes[i].age))
    && (forall i, j :: 0 <= i < j < |s.scrapes| ==> s.scrapes[i].age <= s.scrapes[j].age)
  }

  ghost predicate Inv(s: System) {
    && s.projects in s.lists
    && Exclusive(s)
    && (forall g :: 0 <= g < |s.goroutines| ==> GoroutineInv(s, s.goroutines[g]))
    && (Unwritten(s) ==> s.observations == Visible(s.published, |s.published|))
    && (forall i :: 0 <= i < |s.published| ==> Genuine(s, s.published[i]))
    && ScrapesInv(s)
  }

  lemma InitialInv(projects: seq<string>, n: nat)
    ensures Inv(Initial(projects, n))
  {
  }

  lemma StepInv(s: System, a: Step)
    requires Inv(s) && Enabled(s, a)
    ensures Inv(Apply(s, a))
  {
    match a
    case SetProjects(_) =>
    case Begin(_) =>
    case Fetch(_, _) => FetchInv(s, a);
    case Lock(_, _) =>
    case WriteSeries(_) => WriteInv(s, a);
    case WriteGauges(_) => WriteInv(s, a);
    case ReadLock(_) =>
    case CopySeries(_) =>
    case CopyGauges(_) => CopyInv(s, a);
  }

  lemma FetchInv(s: System, a: Step)
    requires Inv(s) && Enabled(s, a) && a.Fetch?
    ensures Inv(Apply(s, a))
  {
    var s' := Apply(s, a);
    if Unwritten(s') {
      assert forall g :: 0 <= g < |s.goroutines| && g != a.g ==> s'.goroutines[g] == s.goroutines[g];
    }
  }

  lemma WriteInv(s: System, a: Step)
    requires Inv(s) && Enabled(s, a) && (a.WriteSeries? || a.WriteGauges?)
    ensures Inv(Apply(s, a))
  {
    var s' := Apply(s, a);
    assert s.goroutines[a.g].Writing();
    assert forall g :: 0 <= g < |s.goroutines| && g != a.g ==> s'.goroutines[g] == s.goroutines[g];
    if a.WriteSeries? {
      assert s'.goroutines[a.g].Writing();
    }
  }

  lemma CopyInv(s: System, a: Step)
    requires Inv(s) && Enabled(s, a) && a.CopyGauges?
    ensures Inv(Apply(s, a))
  {
    var s' := Apply(s, a);
    assert s.goroutines[a.g].Reading();
    assert forall g :: 0 <= g < |s.goroutines| && g != a.g ==> s'.goroutines[g] == s.goroutines[g];
  }

  lemma StepAppends(s: System, a: Step)
    requires Enabled(s, a)
    ensures s.published <= Apply(s, a).published && s.scrapes <= Apply(s, a).scrapes
  {
  }

  lemma {:induction false} RunInv(s: System, steps: seq<Step>)
    requires Inv(s) && Runs(s, steps)
    ensures Inv(After(s, steps))
    ensures s.published <= After(s, steps).published && s.scrapes <= After(s, steps).scrapes
    decreases |steps|
  {
    if steps != [] {
      StepInv(s, steps[0]);
      StepAppends(s, steps[0]);
      RunInv(Apply(s, steps[0]), steps[1..]);
    }
  }

  // ---------- What the steps taken so far amount to

  /** The project list in force: the one set last, or the first one. */
  ghost function InForce(first: seq<string>, steps: seq<Step>): seq<string> {
    if steps == [] then first
    else
      var (front, a) := (steps[..|steps| - 1], steps[|steps| - 1]);
      if a.SetProjects? then a.projects else InForce(first, front)
  }

  /** The list that was in force when goroutine g last began a Run. */
  ghost function ListOf(first: seq<string>, steps: seq<Step>, g: nat): seq<string> {
    if steps == [] then first
    else
      var (front, a) := (steps[..|steps| - 1], steps[|steps| - 1]);
      if a == Begin(g) then InForce(first, front) else ListOf(first, front, g)
  }

  /** The replies that g has fetched since then. */
  ghost function RepliesOf(steps: seq<Step>, g: nat): seq<Reply> {
    if steps == [] then []
    else
      var (front, a) := (steps[..|steps| - 1], steps[|steps| - 1]);
      if a == Begin(g) then []
      else if a.Fetch? && a.g == g then RepliesOf(front, g) + [a.reply]
      else RepliesOf(front, g)
  }

  /** The result that g took the write lock with. */
  ghost function ResultOf(steps: seq<Step>, g: nat): Observations {
    if steps == [] then NO_OBSERVATIONS
    else
      var (front, a) := (steps[..|steps| - 1], steps[|steps| - 1]);
      if a.Lock? && a.g == g then a.obs else ResultOf(front, g)
  }

  /** Every cycle that has been published, in order. */
  ghost function PublicationsOf(first: seq<string>, steps: seq<Step>): seq<Publication> {
    if steps == [] then []
    else
      var (front, a) := (steps[..|steps| - 1], steps[|steps| - 1]);
      if a.WriteGauges? then
        PublicationsOf(first, front) + [Publication(ListOf(first, front, a.g), RepliesOf(front, a.g), ResultOf(front, a.g))]
      else PublicationsOf(first, front)
  }

  /** What every scrape should have shown: the cycle published last before it, or the initial value. */
  ghost function ScrapesOf(first: seq<string>, steps: seq<Step>): seq<Scrape> {
    if steps == [] then []
    else
      var (front, a) := (steps[..|steps| - 1], steps[|steps| - 1]);
      if a.CopyGauges? then
        var published := PublicationsOf(first, front);
        ScrapesOf(first, front)
        + [Scrape(if published == [] then NO_OBSERVATIONS else published[|published| - 1].obs, |published|)]
      else ScrapesOf(first, front)
  }

  /** The goroutine's own variables are what it has collected. */
  ghost predicate Remembers(first: seq<string>, steps: seq<Step>, g: nat, p: Goroutine) {
    match p
    case Fetching(snapshot, replies) => snapshot == ListOf(first, steps, g) && replies == RepliesOf(steps, g)
    case Locked(snapshot, replies, obs) =>
      snapshot == ListOf(first, steps, g) && replies == RepliesOf(steps, g) && obs == ResultOf(steps, g)
    case HalfWritten(snapshot, replies, obs) =>
      snapshot == ListOf(first, steps, g) && replies == RepliesOf(steps, g) && obs == ResultOf(steps, g)
    case _ => true
  }

  /** The state is explained by the steps that led to it. */
  ghost predicate Explained(first: seq<string>, steps: seq<Step>, s: System) {
    && s.projects == InForce(first, steps)
    && (forall g :: 0 <= g < |s.goroutines| ==> Remembers(first, steps, g, s.goroutines[g]))
    && s.published == PublicationsOf(first, steps)
    && s.scrapes == ScrapesOf(first, steps)
  }

  lemma HistorySnoc(first: seq<string>, steps: seq<Step>, a: Step, g: nat)
    ensures InForce(first, steps + [a]) == if a.SetProjects? then a.projects else InForce(first, steps)
    ensures ListOf(first, steps + [a], g) == if a == Begin(g) then InForce(first, steps) else ListOf(first, steps, g)
    ensures RepliesOf(steps + [a], g) ==
            if a == Begin(g) then []
            else if a.Fetch? && a.g == g then RepliesOf(steps, g) + [a.reply]
            else RepliesOf(steps, g)
    ensures ResultOf(steps + [a], g) == if a.Lock? && a.g == g then a.obs else ResultOf(steps, g)
  {
    assert (steps + [a])[..|steps|] == steps;
  }

  lemma RemembersStep(first: seq<string>, steps: seq<Step>, s: System, a: Step, g: nat)
    requires Explained(first, steps, s) && Enabled(s, a) && g < |s.goroutines|
    ensures Remembers(first, steps + [a], g, Apply(s, a).goroutines[g])
  {
    HistorySnoc(first, steps, a, g);
    assert Remembers(first, steps, g, s.goroutines[g]);
  }

  lemma StepExplained(first: seq<string>, steps: seq<Step>, s: System, a: Step)
    requires Inv(s) && Explained(first, steps, s) && Enabled(s, a)
    ensures Explained(first, steps + [a], Apply(s, a))
  {
    var s' := Apply(s, a);
    forall g | 0 <= g < |s'.goroutines|
      ensures Remembers(first, steps + [a], g, s'.goroutines[g])
    {
      RemembersStep(first, steps, s, a, g);
    }
    assert (steps + [a])[..|steps|] == steps;
    if a.WriteGauges? {
      assert Remembers(first, steps, a.g, s.goroutines[a.g]);
    } else if a.CopyGauges? {
      assert GoroutineInv(s, s.goroutines[a.g]);
    }
  }

  lemma {:induction false} RunFront(s: System, steps: seq<Step>)
    requires Runs(s, steps) && steps != []
    ensures var (front, a) := (steps[..|steps| - 1], steps[|steps| - 1]);
            Runs(s, front) && Enabled(After(s, front), a) && After(s, steps) == Apply(After(s, front), a)
    decreases |steps|
  {
    if |steps| > 1 {
      RunFront(Apply(s, steps[0]), steps[1..]);
      assert steps[1..][..|steps| - 2] == steps[..|steps| - 1][1..];
    } else {
      assert steps[..0] == [] && steps[1..] == [];
    }
  }

  lemma {:induction false} RunExplained(projects: seq<string>, n: nat, steps: seq<Step>)
    requires Runs(Initial(projects, n), steps)
    ensures Explained(projects, steps, After(Initial(projects, n), steps))
  {
    if steps != [] {
      var init, front, a := Initial(projects, n), steps[..|steps| - 1], steps[|steps| - 1];
      RunFront(init, steps);
      RunExplained(projects, n, front);
      InitialInv(projects, n);
      RunInv(init, front);
      StepExplained(projects, front, After(init, front), a);
      assert steps == front + [a];
    }
  }

  /**
   * Snapshot isolation, over every interleaving from the start. Each publication is the whole result of
   * one uncancelled Run over the project list in force when that Run began; each scrape shows exactly
   * the publication made last before it, or the initial value when there was none; and so later
   * scrapes never show an earlier Run.
   */
  lemma EveryScrapeIsOneRun(projects: seq<string>, n: nat, steps: seq<Step>)
    requires Runs(Initial(projects, n), steps)
    ensures var end := After(Initial(projects, n), steps);
            && end.published == PublicationsOf(projects, steps)
            && end.scrapes == ScrapesOf(projects, steps)
            && (forall i :: 0 <= i < |end.published| ==>
                  IsResult(end.published[i].snapshot, end.published[i].replies, end.published[i].obs))
            && (forall i :: 0 <= i < |end.scrapes| ==>
                  var (obs, age) := (end.scrapes[i].obs, end.scrapes[i].age);
                  if age == 0 then obs == NO_OBSERVATIONS
                  else age <= |end.published| && obs == end.published[age - 1].obs)
            && (forall i, j :: 0 <= i < j < |end.scrapes| ==> end.scrapes[i].age <= end.scrapes[j].age)
  {
    InitialInv(projects, n);
    RunInv(Initial(projects, n), steps);
    RunExplained(projects, n, steps);
    var end := After(Initial(projects, n), steps);
    forall i | 0 <= i < |end.published|
      ensures IsResult(end.published[i].snapshot, end.published[i].replies, end.published[i].obs)
    {
      assert Genuine(end, end.published[i]);
    }
  }

  // ---------- Cycles do get published and shown

  lemma {:induction false} RunBack(s: System, steps: seq<Step>, a: Step)
    requires Runs(s, steps) && Enabled(After(s, steps), a)
    ensures Runs(s, steps + [a]) && After(s, steps + [a]) == Apply(After(s, steps), a)
    decreases |steps|
  {
    if steps == [] {
      assert [a][1..] == [];
    } else {
      assert (steps + [a])[1..] == steps[1..] + [a];
      RunBack(Apply(s, steps[0]), steps[1..], a);
    }
  }

  /** One goroutine in this phase, with nothing published or scraped yet. */
  ghost function Alone(projects: seq<string>, p: Goroutine): System {
    System(projects, NO_OBSERVATIONS, [p], [projects], [], [])
  }

  lemma {:induction false} FetchAll(projects: seq<string>, replies: seq<Reply>, n: nat) returns (steps: seq<Step>)
    requires n <= |replies| <= |projects|
    requires forall i :: 0 <= i < |replies| ==> !replies[i].Cancelled?
    ensures Runs(Initial(projects, 1), steps)
    ensures After(Initial(projects, 1), steps) == Alone(projects, Fetching(projects, replies[..n]))
  {
    var init := Initial(projects, 1);
    if n == 0 {
      assert init.goroutines == [Free];
      RunBack(init, [], Begin(0));
      assert [] + [Begin(0)] == [Begin(0)] && replies[..0] == [];
      steps := [Begin(0)];
    } else {
      var front := FetchAll(projects, replies, n - 1);
      RunBack(init, front, Fetch(0, replies[n - 1]));
      PrefixSnoc(replies, n - 1);
      steps := front + [Fetch(0, replies[n - 1])];
    }
  }

  lemma PublishFetched(projects: seq<string>, replies: seq<Reply>, obs: Observations, fetched: seq<Step>) returns (steps: seq<Step>)
    requires IsResult(projects, replies, obs) && Runs(Initial(projects, 1), fetched)
    requires After(Initial(projects, 1), fetched) == Alone(projects, Fetching(projects, replies))
    ensures Runs(Initial(projects, 1), steps)
    ensures After(Initial(projects, 1), steps) ==
            Alone(projects, Free).(observations := obs, published := [Publication(projects, replies, obs)])
  {
    var init := Initial(projects, 1);
    RunBack(init, fetched, Lock(0, obs));
    steps := fetched + [Lock(0, obs)];
    RunBack(init, steps, WriteSeries(0));
    steps := steps + [WriteSeries(0)];
    RunBack(init, steps, WriteGauges(0));
    steps := steps + [WriteGauges(0)];
  }

  /** Every result of every cycle can be published and then shown by a scrape. */
  lemma EveryResultCanBeShown(projects: seq<string>, replies: seq<Reply>, obs: Observations) returns (steps: seq<Step>)
    requires IsResult(projects, replies, obs)
    ensures Runs(Initial(projects, 1), steps)
    ensures After(Initial(projects, 1), steps).published == [Publication(projects, replies, obs)]
    ensures After(Initial(projects, 1), steps).scrapes == [Scrape(obs, 1)]
  {
    var init := Initial(projects, 1);
    steps := FetchAll(projects, replies, |replies|);
    assert replies[..|replies|] == replies;
    steps := PublishFetched(projects, replies, obs, steps);
    RunBack(init, steps, ReadLock(0));
    steps := steps + [ReadLock(0)];
    RunBack(init, steps, CopySeries(0));
    steps := steps + [CopySeries(0)];
    RunBack(init, steps, CopyGauges(0));
    steps := steps + [CopyGauges(0)];
  }
}
