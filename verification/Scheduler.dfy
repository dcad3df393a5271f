/**
 * internal/scheduler and the life cycle of exporter.go: one goroutine per periodic task, a WaitGroup,
 * cancellation and tickers, as a machine whose every interleaving is a run.
 */
module Scheduling {
  import opened Prelude

  /** Where a task's goroutine is. */
  datatype Phase =
    | Unborn       // no go statement yet
    | Born         // spawned, task.Run not yet entered
    | FirstRun     // in the immediate first execution
    | Selecting    // in the select between ctx.Done and ticker.C
    | Running      // executing a tick
    | Returning    // Run has returned, the deferred wg.Done has not run
    | Gone

  /**
   * Ticker state (once created): next is the instant of the next tick, buffered its one-slot channel;
   * created and ticks record when it was created and how many periods next lies after that.
   */
  datatype Task = Task(interval: int, phase: Phase, next: Time, buffered: bool, started: nat, finished: nat,
                       created: Time, ticks: nat)

  /** Where Exporter.Run is. */
  datatype MainPhase =
    | Adding(i: nat)       // about to wg.Add for task i; past the last task the loop ends
    | Spawning(i: nat)     // about to `go` task i
    | StartingServer
    | Serving              // blocked on ctx.Done
    | StoppingServer
    | Cancelling
    | Joining              // wg.Wait
    | Closing              // Stop has returned; store.Close is next
    | Closed
    | Aborted              // the server failed to start: Run returned early

  /** parentDone: the caller's context; cancelled: the scheduler's own cancel; crashed: a panic ended the process. */
  datatype System = System(now: Time, parentDone: bool, cancelled: bool, crashed: bool, main: MainPhase, wg: int, tasks: seq<Task>)

  datatype Step =
    | Advance(to: Time)
    | CancelParent
    | Proceed               // the main goroutine's next statement
    | ServerFails
    | Enter(t: nat)         // the goroutine starts its first execution
    | EndFirst(t: nat)      // the first execution ends; the ticker is created
    | Fire(t: nat)          // the runtime delivers a due tick, or drops it when the slot is full
    | Tick(t: nat)          // the select receives a tick and starts an execution
    | EndRun(t: nat)
    | SeeDone(t: nat)       // the select sees the cancelled context
    | Leave(t: nat)         // wg.Done

  predicate Done(s: System) {
    s.parentDone || s.cancelled
  }

  predicate MainEnabled(s: System) {
    match s.main
    case Adding(_) => true
    case Spawning(i) => i < |s.tasks|
    case StartingServer => true
    case Serving => s.parentDone
    case StoppingServer => true
    case Cancelling => true
    case Joining => s.wg == 0
    case Closing => true
    case Closed => false
    case Aborted => false
  }

  predicate TaskEnabled(s: System, a: Step, task: Task) {
    match a
    case Enter(_) => task.phase.Born?
    case EndFirst(_) => task.phase.FirstRun?
    case Fire(_) => (task.phase.Selecting? || task.phase.Running?) && s.now >= task.next
    case Tick(_) => task.phase.Selecting? && task.buffered
    case EndRun(_) => task.phase.Running?
    case SeeDone(_) => task.phase.Selecting? && Done(s)
    case Leave(_) => task.phase.Returning?
    case _ => false
  }

  predicate OfTask(a: Step) {
    a.Enter? || a.EndFirst? || a.Fire? || a.Tick? || a.EndRun? || a.SeeDone? || a.Leave?
  }

  predicate Enabled(s: System, a: Step) {
    && !s.crashed
    && match a
       case Advance(to) => to >= s.now
       case CancelParent => true
       case Proceed => MainEnabled(s)
       case ServerFails => s.main.StartingServer?
       case _ => a.t < |s.tasks| && TaskEnabled(s, a, s.tasks[a.t])
  }

  /** The multiple of the interval at which a ticker that is due fires next: missed ticks are skipped. */
  function PeriodsToNext(task: Task, now: Time): (k: int)
    requires task.interval > 0 && now >= task.next
    ensures k >= 1
  {
    1 + (now - task.next) / task.interval
  }

  /** What a task's own step does to it. */
  function TaskAfter(a: Step, task: Task, now: Time): Task
    requires a.Fire? ==> now >= task.next
  {
    match a
    case Enter(_) => task.(phase := FirstRun, started := task.started + 1)
    case EndFirst(_) =>
      task.(phase := Selecting, finished := task.finished + 1,
            next := now + task.interval, buffered := false, created := now, ticks := 1)
    case Fire(_) =>
      if task.interval <= 0 then task
      else
        var k := PeriodsToNext(task, now);
        task.(next := task.next + k * task.interval, ticks := task.ticks + k, buffered := true)
    case Tick(_) => task.(phase := Running, buffered := false, started := task.started + 1)
    case EndRun(_) => task.(phase := Selecting, finished := task.finished + 1)
    case SeeDone(_) => task.(phase := Returning)
    case Leave(_) => task.(phase := Gone)
    case _ => task
  }

  function MainAfter(s: System): System {
    match s.main
    case Adding(i) =>
      if i < |s.tasks| then s.(wg := s.wg + 1, main := Spawning(i)) else s.(main := StartingServer)
    case Spawning(i) =>
      if i < |s.tasks| then s.(tasks := s.tasks[i := s.tasks[i].(phase := Born)], main := Adding(i + 1)) else s
    case StartingServer => s.(main := Serving)
    case Serving => s.(main := StoppingServer)
    case StoppingServer => s.(main := Cancelling)
    case Cancelling => s.(cancelled := true, main := Joining)
    case Joining => s.(main := Closing)
    case Closing => s.(main := Closed)
    case Closed => s
    case Aborted => s
  }

  function Apply(s: System, a: Step): System
    requires Enabled(s, a)
  {
    match a
    case Advance(to) => s.(now := to)
    case CancelParent => s.(parentDone := true)
    case Proceed => MainAfter(s)
    case ServerFails => s.(main := Aborted)
    case EndFirst(t) =>
      // time.NewTicker panics on a non-positive interval, and nothing recovers.
      if s.tasks[t].interval <= 0 then s.(crashed := true)
      else s.(tasks := s.tasks[t := TaskAfter(a, s.tasks[t], s.now)])
    case Leave(t) => s.(tasks := s.tasks[t := TaskAfter(a, s.tasks[t], s.now)], wg := s.wg - 1)
    case _ => s.(tasks := s.tasks[a.t := TaskAfter(a, s.tasks[a.t], s.now)])
  }

  predicate Runs(s: System, steps: seq<Step>)
    decreases |steps|
  {
    steps == [] || (Enabled(s, steps[0]) && Runs(Apply(s, steps[0]), steps[1..]))
  }

  function After(s: System, steps: seq<Step>): System
    requires Runs(s, steps)
    decreases |steps|
  {
    if steps == [] then s else After(Apply(s, steps[0]), steps[1..])
  }

  /** A task as AddTask leaves it. */
  function NewTask(interval: int): Task {
    Task(interval, Unborn, 0, false, 0, 0, 0, 0)
  }

  function Initial(intervals: seq<int>, now: Time): System {
    System(now, false, false, false, Adding(0), 0, seq(|intervals|, i requires 0 <= i < |intervals| => NewTask(intervals[i])))
  }

  // ---------- The invariant

  /** Goroutines that have been spawned and have not run wg.Done. */
  predicate Live(task: Task) {
    !task.phase.Unborn? && !task.phase.Gone?
  }

  ghost function LiveTasks(s: System): set<nat> {
    set t: nat | t < |s.tasks| && Live(s.tasks[t])
  }

  /** How many tasks have been spawned. */
  function Spawned(s: System): nat {
    match s.main
    case Adding(i) => i
    case Spawning(i) => i
    case _ => |s.tasks|
  }

  /** Executions follow one another: at most one is unfinished, and only in a running phase. */
  predicate Executions(task: Task) {
    match task.phase
    case Unborn => task.started == task.finished == 0
    case Born => task.started == task.finished == 0
    case FirstRun => task.started == 1 && task.finished == 0
    case Running => task.finished >= 1 && task.started == task.finished + 1
    case _ => task.finished >= 1 && task.started == task.finished
  }

  predicate HasTicker(task: Task) {
    task.phase.Selecting? || task.phase.Running? || task.phase.Returning? || task.phase.Gone?
  }

  /** next lies `ticks` whole periods after the ticker's creation, and the last of them has passed. */
  predicate TickerOnTime(task: Task, now: Time) {
    HasTicker(task) ==>
      && task.interval > 0
      && task.ticks >= 1
      && task.next == task.created + task.ticks * task.interval
      && task.created <= task.next - task.interval <= now
      && task.started + (if task.buffered then 1 else 0) <= task.ticks
  }

  ghost predicate Inv(s: System) {
    && Spawned(s) <= |s.tasks|
    && (s.main.Spawning? ==> s.main.i < |s.tasks|)
    && (s.cancelled <==> s.main.Joining? || s.main.Closing? || s.main.Closed?)
    && s.wg == |LiveTasks(s)| + (if s.main.Spawning? then 1 else 0)
    && (forall t :: 0 <= t < |s.tasks| ==> (s.tasks[t].phase.Unborn? <==> t >= Spawned(s)))
    && (forall t :: 0 <= t < |s.tasks| ==> Executions(s.tasks[t]) && TickerOnTime(s.tasks[t], s.now))
    && (s.main.Closing? || s.main.Closed? ==> LiveTasks(s) == {})
  }

  lemma NextMultiple(interval: int, next: Time, now: Time)
    requires interval > 0 && now >= next
    ensures ((now - next) / interval) * interval <= now - next
    ensures (now - next) / interval >= 0
  {
  }

  lemma AddPeriods(a: int, b: int, interval: int)
    ensures (a + b) * interval == a * interval + b * interval
  {
  }

  /** A task's own step keeps its executions in sequence and its ticker on time. */
  lemma TaskStepInv(s: System, a: Step, task: Task)
    requires OfTask(a) && TaskEnabled(s, a, task)
    requires Executions(task) && TickerOnTime(task, s.now)
    requires a.EndFirst? ==> task.interval > 0
    ensures var task' := TaskAfter(a, task, s.now);
            && Executions(task') && TickerOnTime(task', s.now)
            && !task'.phase.Unborn? && (Live(task') <==> !a.Leave?)
  {
    if a.Fire? {
      var k := PeriodsToNext(task, s.now);
      NextMultiple(task.interval, task.next, s.now);
      AddPeriods(task.ticks, k, task.interval);
      AddPeriods(1, k - 1, task.interval);
    } else if a.EndFirst? {
      assert 1 * task.interval == task.interval;
    }
  }

  lemma LiveAfter(s: System, s': System, t: nat)
    requires t < |s.tasks| == |s'.tasks| && s'.tasks == s.tasks[t := s'.tasks[t]]
    ensures LiveTasks(s') == if Live(s'.tasks[t]) then LiveTasks(s) + {t} else LiveTasks(s) - {t}
  {
  }

  lemma StepOfTaskInv(s: System, a: Step)
    requires Inv(s) && Enabled(s, a) && OfTask(a)
    requires a.EndFirst? ==> s.tasks[a.t].interval > 0
    ensures Inv(Apply(s, a))
  {
    var s' := Apply(s, a);
    var t := a.t;
    assert !s.tasks[t].phase.Unborn? && Live(s.tasks[t]) && t in LiveTasks(s);
    TaskStepInv(s, a, s.tasks[t]);
    LiveAfter(s, s', t);
    assert LiveTasks(s) + {t} == LiveTasks(s);
    assert forall u :: 0 <= u < |s.tasks| && u != t ==> s'.tasks[u] == s.tasks[u];
  }

  lemma SpawnInv(s: System)
    requires Inv(s) && s.main.Spawning? && s.main.i < |s.tasks|
    ensures Inv(MainAfter(s))
  {
    var s', i := MainAfter(s), s.main.i;
    assert s.tasks[i].phase.Unborn? && i !in LiveTasks(s);
    LiveAfter(s, s', i);
    assert |LiveTasks(s')| == |LiveTasks(s)| + 1 == s'.wg;
    forall t | 0 <= t < |s'.tasks|
      ensures s'.tasks[t].phase.Unborn? <==> t >= Spawned(s')
      ensures Executions(s'.tasks[t]) && TickerOnTime(s'.tasks[t], s'.now)
    {
      assert t != i ==> s'.tasks[t] == s.tasks[t];
      assert Executions(s.tasks[t]) && TickerOnTime(s.tasks[t], s.now);
    }
  }

  lemma MainStepInv(s: System)
    requires Inv(s) && MainEnabled(s)
    ensures Inv(MainAfter(s))
  {
    if s.main.Spawning? {
      SpawnInv(s);
    } else {
      assert MainAfter(s).tasks == s.tasks;
      assert LiveTasks(MainAfter(s)) == LiveTasks(s);
    }
  }

  lemma StepInv(s: System, a: Step)
    requires Inv(s) && Enabled(s, a)
    ensures Inv(Apply(s, a))
  {
    if OfTask(a) && !(a.EndFirst? && s.tasks[a.t].interval <= 0) {
      StepOfTaskInv(s, a);
    } else if a.Proceed? {
      MainStepInv(s);
    } else {
      assert LiveTasks(Apply(s, a)) == LiveTasks(s);
    }
  }

  lemma InitialInv(intervals: seq<int>, now: Time)
    ensures Inv(Initial(intervals, now))
  {
    assert LiveTasks(Initial(intervals, now)) == {};
  }

  /** Over every interleaving with one Start, the WaitGroup counts the live goroutines and all else in Inv holds. */
  lemma {:induction false} RunInv(s: System, steps: seq<Step>)
    requires Inv(s) && Runs(s, steps)
    ensures Inv(After(s, steps))
    decreases |steps|
  {
    if steps != [] {
      StepInv(s, steps[0]);
      RunInv(Apply(s, steps[0]), steps[1..]);
    }
  }

  // ---------- Shutdown

  /** The task ran at least once, is not executing and its goroutine has ended. */
  predicate Over(task: Task) {
    task.phase.Gone? && task.finished >= 1 && task.started == task.finished
  }

  lemma StoppedMeansOver(s: System)
    requires Inv(s) && (s.main.Closing? || s.main.Closed?)
    ensures forall t :: 0 <= t < |s.tasks| ==> Over(s.tasks[t])
  {
    forall t | 0 <= t < |s.tasks|
      ensures Over(s.tasks[t])
    {
      assert t !in LiveTasks(s);
    }
  }

  lemma {:induction false} NothingStartsAgain(s: System, steps: seq<Step>)
    requires Inv(s) && (s.main.Closing? || s.main.Closed?) && Runs(s, steps)
    ensures After(s, steps).tasks == s.tasks
    decreases |steps|
  {
    if steps != [] {
      StoppedMeansOver(s);
      StepInv(s, steps[0]);
      NothingStartsAgain(Apply(s, steps[0]), steps[1..]);
    }
  }

  /**
   * Shutdown safety: in every run, once Stop has returned, so also when the store is closed, every
   * task has executed at least once, none is executing, and none ever executes again.
   */
  lemma ShutdownSafety(intervals: seq<int>, now: Time, steps: seq<Step>, more: seq<Step>)
    requires Runs(Initial(intervals, now), steps)
    requires var s := After(Initial(intervals, now), steps);
             (s.main.Closing? || s.main.Closed?) && Runs(s, more)
    ensures var s := After(Initial(intervals, now), steps);
            && s.wg == 0 && s.cancelled
            && (forall t :: 0 <= t < |s.tasks| ==> Over(s.tasks[t]))
            && After(s, more).tasks == s.tasks
  {
    InitialInv(intervals, now);
    RunInv(Initial(intervals, now), steps);
    var s := After(Initial(intervals, now), steps);
    StoppedMeansOver(s);
    NothingStartsAgain(s, more);
  }

  // ---------- Shutdown is reached

  function MainRank(s: System): nat
    requires Spawned(s) <= |s.tasks|
  {
    match s.main
    case Adding(i) => 2 * (|s.tasks| - i) + 8
    case Spawning(i) => 2 * (|s.tasks| - i) + 7
    case StartingServer => 7
    case Serving => 6
    case StoppingServer => 5
    case Cancelling => 4
    case Joining => 3
    case Closing => 2
    case Closed => 0
    case Aborted => 0
  }

  /** How many steps a task is away from its end once the context is done. */
  function TaskRank(task: Task): nat {
    match task.phase
    case Unborn => 6
    case Born => 5
    case FirstRun => 4
    case Running => 3
    case Selecting => 2
    case Returning => 1
    case Gone => 0
  }

  /** The step that takes a live task towards its end. */
  function Ending(task: Task, t: nat): Step {
    match task.phase
    case Born => Enter(t)
    case FirstRun => EndFirst(t)
    case Running => EndRun(t)
    case Selecting => SeeDone(t)
    case _ => Leave(t)
  }

  function Rank(s: System): nat
    requires Spawned(s) <= |s.tasks|
  {
    MainRank(s) + NatSum(TaskRank, s.tasks)
  }

  lemma {:induction false} SumUpdate(tasks: seq<Task>, t: nat, task: Task)
    requires t < |tasks|
    ensures NatSum(TaskRank, tasks[t := task]) == NatSum(TaskRank, tasks) - TaskRank(tasks[t]) + TaskRank(task)
  {
    var n := |tasks| - 1;
    if t == n {
      assert tasks[t := task][..n] == tasks[..n];
    } else {
      SumUpdate(tasks[..n], t, task);
      assert tasks[t := task][..n] == tasks[..n][t := task];
    }
  }

  lemma EndingSteps(s: System, t: nat)
    requires Inv(s) && Positive(s) && !s.crashed && s.parentDone && t in LiveTasks(s)
    ensures Enabled(s, Ending(s.tasks[t], t))
    ensures Spawned(Apply(s, Ending(s.tasks[t], t))) <= |s.tasks| && Rank(Apply(s, Ending(s.tasks[t], t))) < Rank(s)
  {
    var a := Ending(s.tasks[t], t);
    SumUpdate(s.tasks, t, TaskAfter(a, s.tasks[t], s.now));
  }

  lemma ProceedingSteps(s: System)
    requires Inv(s) && MainEnabled(s)
    ensures Spawned(MainAfter(s)) <= |s.tasks| && Rank(MainAfter(s)) < Rank(s)
  {
    if s.main.Spawning? {
      SumUpdate(s.tasks, s.main.i, s.tasks[s.main.i].(phase := Born));
    }
  }

  lemma CloserStep(s: System) returns (a: Step)
    requires Inv(s) && Positive(s) && !s.crashed && s.parentDone && !s.main.Aborted? && !s.main.Closed?
    ensures Enabled(s, a) && Spawned(Apply(s, a)) <= |Apply(s, a).tasks| && Rank(Apply(s, a)) < Rank(s)
    ensures var s' := Apply(s, a); Positive(s') && !s'.crashed && s'.parentDone && !s'.main.Aborted?
  {
    if MainEnabled(s) {
      a := Proceed;
      ProceedingSteps(s);
    } else {
      var t :| t in LiveTasks(s);
      a := Ending(s.tasks[t], t);
      EndingSteps(s, t);
    }
  }

  /** Once the context is done the exporter can always go on to its end. */
  lemma {:induction false} CanClose(s: System) returns (steps: seq<Step>)
    requires Inv(s) && Positive(s) && !s.crashed && s.parentDone && !s.main.Aborted?
    ensures Runs(s, steps) && After(s, steps).main.Closed?
    decreases Rank(s)
  {
    if s.main.Closed? {
      return [];
    }
    var a := CloserStep(s);
    StepInv(s, a);
    var rest := CanClose(Apply(s, a));
    steps := [a] + rest;
  }

  /**
   * Unless the server has failed to start, from every reachable state of a scheduler with positive
   * intervals some run goes on to the closing of the store.
   */
  lemma ShutdownIsReached(intervals: seq<int>, now: Time, steps: seq<Step>) returns (more: seq<Step>)
    requires forall t :: 0 <= t < |intervals| ==> intervals[t] > 0
    requires Runs(Initial(intervals, now), steps) && !After(Initial(intervals, now), steps).main.Aborted?
    ensures Runs(After(Initial(intervals, now), steps), more)
    ensures After(After(Initial(intervals, now), steps), more).main.Closed?
  {
    var init := Initial(intervals, now);
    InitialInv(intervals, now);
    RunInv(init, steps);
    PositiveNeverCrash(init, steps);
    var s := After(init, steps);
    StepInv(s, CancelParent);
    var rest := CanClose(Apply(s, CancelParent));
    more := [CancelParent] + rest;
  }

  // ---------- Pacing

  lemma WholePeriods(ticks: int, interval: int, elapsed: int)
    requires interval > 0 && (ticks - 1) * interval <= elapsed
    ensures ticks <= 1 + elapsed / interval
  {
    var q := elapsed / interval;
    assert elapsed < (q + 1) * interval;
    if ticks - 1 >= q + 1 {
      MulMonotone(q + 1, ticks - 1, interval);
    }
  }

  /**
   * Task pacing: in every reachable state at most one execution of a task is unfinished, and the
   * number started is at most one plus the whole intervals since its ticker was created, however
   * long executions take.
   */
  lemma TaskPacing(intervals: seq<int>, now: Time, steps: seq<Step>, t: nat)
    requires Runs(Initial(intervals, now), steps)
    requires t < |After(Initial(intervals, now), steps).tasks|
    ensures var s := After(Initial(intervals, now), steps);
            var task := s.tasks[t];
            && task.finished <= task.started <= task.finished + 1
            && (task.started > task.finished <==> task.phase.FirstRun? || task.phase.Running?)
            && if HasTicker(task) then task.interval > 0 && task.started <= 1 + (s.now - task.created) / task.interval
               else task.started <= 1
  {
    InitialInv(intervals, now);
    RunInv(Initial(intervals, now), steps);
    var s := After(Initial(intervals, now), steps);
    var task := s.tasks[t];
    if HasTicker(task) {
      AddPeriods(task.ticks - 1, 1, task.interval);
      WholePeriods(task.ticks, task.interval, s.now - task.created);
    }
  }

  // ---------- How close together executions can start

  /** The step starts an execution of task t. */
  predicate Begins(a: Step, t: nat) {
    (a.Enter? || a.Tick?) && a.t == t
  }

  /** The instants at which executions of task t start, in order. */
  ghost function Starts(s: System, steps: seq<Step>, t: nat): seq<Time>
    requires Runs(s, steps)
    decreases |steps|
  {
    if steps == [] then []
    else
      var rest := Starts(Apply(s, steps[0]), steps[1..], t);
      if Begins(steps[0], t) then [s.now] + rest else rest
  }

  lemma {:induction false} StartsCounted(s: System, steps: seq<Step>, t: nat)
    requires Runs(s, steps) && t < |s.tasks|
    ensures |After(s, steps).tasks| == |s.tasks|
    ensures After(s, steps).tasks[t].started == s.tasks[t].started + |Starts(s, steps, t)|
    decreases |steps|
  {
    if steps != [] {
      StartsCounted(Apply(s, steps[0]), steps[1..], t);
    }
  }

  lemma {:induction false} Extend(s: System, steps: seq<Step>, a: Step)
    requires Runs(s, steps) && Enabled(After(s, steps), a)
    ensures Runs(s, steps + [a]) && After(s, steps + [a]) == Apply(After(s, steps), a)
    decreases |steps|
  {
    if steps == [] {
      assert [a][1..] == [];
    } else {
      assert (steps + [a])[1..] == steps[1..] + [a];
      Extend(Apply(s, steps[0]), steps[1..], a);
    }
  }

  /** The two statements of one turn of the Start loop. */
  lemma SpawnNext(s: System, steps: seq<Step>, i: nat)
    requires Runs(s, steps)
    requires var mid := After(s, steps); !mid.crashed && mid.main == Adding(i) && i < |mid.tasks|
    ensures Runs(s, steps + [Proceed, Proceed])
    ensures var mid := After(s, steps);
            After(s, steps + [Proceed, Proceed]) ==
            mid.(main := Adding(i + 1), wg := mid.wg + 1, tasks := mid.tasks[i := mid.tasks[i].(phase := Born)])
  {
    Extend(s, steps, Proceed);
    Extend(s, steps + [Proceed], Proceed);
    assert steps + [Proceed] + [Proceed] == steps + [Proceed, Proceed];
  }

  /** Spawning the first n tasks without interference. */
  lemma {:induction false} SpawnFirst(intervals: seq<int>, now: Time, n: nat) returns (steps: seq<Step>)
    requires n <= |intervals|
    ensures Runs(Initial(intervals, now), steps)
    ensures After(Initial(intervals, now), steps) ==
            System(now, false, false, false, Adding(n), n,
                   seq(|intervals|, t requires 0 <= t < |intervals| =>
                     if t < n then NewTask(intervals[t]).(phase := Born) else NewTask(intervals[t])))
  {
    if n == 0 {
      steps := [];
    } else {
      var front := SpawnFirst(intervals, now, n - 1);
      SpawnNext(Initial(intervals, now), front, n - 1);
      steps := front + [Proceed, Proceed];
    }
  }

  lemma {:induction false} RunsConcat(s: System, a: seq<Step>, b: seq<Step>, t: nat)
    requires Runs(s, a) && Runs(After(s, a), b)
    ensures Runs(s, a + b) && After(s, a + b) == After(After(s, a), b)
    ensures Starts(s, a + b, t) == Starts(s, a, t) + Starts(After(s, a), b, t)
    decreases |a|
  {
    if a == [] {
      assert a + b == b;
    } else {
      assert (a + b)[1..] == a[1..] + b;
      RunsConcat(Apply(s, a[0]), a[1..], b, t);
    }
  }

  /** s with the clock at `now` and task t in this state. */
  function With(s: System, now: Time, t: nat, task: Task): System
    requires t < |s.tasks|
  {
    s.(now := now, tasks := s.tasks[t := task])
  }

  lemma Wait(s: System, steps: seq<Step>, t: nat, now: Time, task: Task, to: Time) returns (more: seq<Step>)
    requires t < |s.tasks| && !s.crashed && Runs(s, steps) && After(s, steps) == With(s, now, t, task) && now <= to
    ensures Runs(s, more) && After(s, more) == With(s, to, t, task)
    ensures Starts(s, more, t) == Starts(s, steps, t)
  {
    more := steps + [Advance(to)];
    assert [Advance(to)][1..] == [];
    RunsConcat(s, steps, [Advance(to)], t);
  }

  lemma Act(s: System, steps: seq<Step>, t: nat, now: Time, task: Task, a: Step) returns (more: seq<Step>)
    requires t < |s.tasks| && !s.crashed && Runs(s, steps) && After(s, steps) == With(s, now, t, task)
    requires OfTask(a) && a.t == t && !a.Leave? && (a.EndFirst? ==> task.interval > 0)
    requires TaskEnabled(With(s, now, t, task), a, task)
    ensures Runs(s, more) && After(s, more) == With(s, now, t, TaskAfter(a, task, now))
    ensures Starts(s, more, t) == if Begins(a, t) then Starts(s, steps, t) + [now] else Starts(s, steps, t)
  {
    more := steps + [a];
    assert [a][1..] == [];
    RunsConcat(s, steps, [a], t);
    assert s.tasks[t := task][t := TaskAfter(a, task, now)] == s.tasks[t := TaskAfter(a, task, now)];
  }

  lemma OneLater(task: Task, now: Time)
    requires task.interval > 0 && now == task.next
    ensures PeriodsToNext(task, now) == 1
  {
  }

  /** A selecting task waits for its next tick and starts an execution then. */
  lemma TickNext(s: System, steps: seq<Step>, t: nat, now: Time, task: Task) returns (more: seq<Step>, task': Task)
    requires t < |s.tasks| && !s.crashed && Runs(s, steps) && After(s, steps) == With(s, now, t, task)
    requires task.phase.Selecting? && !task.buffered && task.interval > 0 && now <= task.next
    ensures Runs(s, more) && After(s, more) == With(s, task.next, t, task')
    ensures Starts(s, more, t) == Starts(s, steps, t) + [task.next]
    ensures task'.phase.Running? && !task'.buffered
    ensures task'.interval == task.interval && task'.next == task.next + task.interval
  {
    var next := task.next;
    more := Wait(s, steps, t, now, task, next);
    OneLater(task, next);
    more := Act(s, more, t, next, task, Fire(t));
    task' := TaskAfter(Fire(t), task, next);
    more := Act(s, more, t, next, task', Tick(t));
    task' := TaskAfter(Tick(t), task', next);
  }

  /** The first two executions of a spawned task, the second still running. */
  lemma TwoStarts(s: System, t: nat) returns (steps: seq<Step>, task: Task)
    requires t < |s.tasks| && !s.crashed && s.tasks[t].phase.Born? && s.tasks[t].interval > 0
    ensures var i := s.tasks[t].interval;
            && Runs(s, steps) && After(s, steps) == With(s, s.now + i, t, task)
            && Starts(s, steps, t) == [s.now, s.now + i]
            && task.phase.Running? && task.interval == i && task.next == s.now + 2 * i && !task.buffered
  {
    var now := s.now;
    task := s.tasks[t];
    assert With(s, now, t, task) == s;
    steps := Act(s, [], t, now, task, Enter(t));
    task := TaskAfter(Enter(t), task, now);
    steps := Act(s, steps, t, now, task, EndFirst(t));
    task := TaskAfter(EndFirst(t), task, now);
    steps, task := TickNext(s, steps, t, now, task);
  }

  /** A tick arrives while the task executes; the execution ends at `late` and the next one starts at once. */
  lemma LateStart(s: System, t: nat, now: Time, running: Task, late: Time) returns (steps: seq<Step>, task: Task)
    requires t < |s.tasks| && !s.crashed && s == With(s, now, t, running)
    requires running.phase.Running? && !running.buffered && running.interval > 0 && now <= running.next <= late
    ensures Runs(s, steps) && After(s, steps) == With(s, late, t, task) && Starts(s, steps, t) == [late]
    ensures task.phase.Running? && !task.buffered
    ensures task.interval == running.interval && task.next == running.next + running.interval
  {
    var next := running.next;
    steps := Wait(s, [], t, now, running, next);
    OneLater(running, next);
    steps := Act(s, steps, t, next, running, Fire(t));
    task := TaskAfter(Fire(t), running, next);
    steps := Wait(s, steps, t, next, task, late);
    steps := Act(s, steps, t, late, task, EndRun(t));
    task := TaskAfter(EndRun(t), task, late);
    steps := Act(s, steps, t, late, task, Tick(t));
    task := TaskAfter(Tick(t), task, late);
  }

  /** A running task whose execution ends gap before the tick after next starts its next two executions gap apart. */
  lemma LateStarts(s: System, t: nat, now: Time, running: Task, gap: int) returns (steps: seq<Step>)
    requires t < |s.tasks| && !s.crashed && s == With(s, now, t, running)
    requires running.phase.Running? && running.next == now + running.interval && !running.buffered
    requires 0 <= gap < running.interval
    ensures Runs(s, steps)
    ensures Starts(s, steps, t) == [now + 2 * running.interval - gap, now + 2 * running.interval]
  {
    var late := now + 2 * running.interval - gap;
    var task;
    steps, task := LateStart(s, t, now, running, late);
    steps := Act(s, steps, t, late, task, EndRun(t));
    task := TaskAfter(EndRun(t), task, late);
    steps, task := TickNext(s, steps, t, late, task);
  }

  /**
   * Task.Run's documentation promises to wait for the interval between invocations. No interval keeps
   * that promise: for every positive one and every gap below it, some run of the scheduler has two
   * consecutive executions of the task that start exactly that far apart, after one that ran late.
   */
  lemma IntervalNotKept(intervals: seq<int>, now: Time, t: nat, gap: int) returns (steps: seq<Step>)
    requires t < |intervals| && 0 <= gap < intervals[t]
    ensures Runs(Initial(intervals, now), steps)
    ensures Starts(Initial(intervals, now), steps, t) ==
            [now, now + intervals[t], now + 3 * intervals[t] - gap, now + 3 * intervals[t]]
  {
    var init := Initial(intervals, now);
    var front := SpawnFirst(intervals, now, t + 1);
    var born := After(init, front);
    StartsCounted(init, front, t);
    var two, running := TwoStarts(born, t);
    var late := LateStarts(After(born, two), t, now + intervals[t], running, gap);
    RunsConcat(born, two, late, t);
    RunsConcat(init, front, two + late, t);
    steps := front + (two + late);
  }

  /** Whole intervals since the ticker was created. */
  function Slot(task: Task, now: Time): int
    requires task.interval > 0
  {
    (now - task.created) / task.interval
  }

  /** The interval that the next tick may belong to: later ones than ticks when the runtime is behind. */
  function Position(task: Task, now: Time): int
    requires task.interval > 0
  {
    if task.ticks > Slot(task, now) then task.ticks else Slot(task, now)
  }

  /** Executions started or already due. */
  function Due(task: Task): nat {
    task.started + if task.buffered then 1 else 0
  }

  /** How task x at instant a may have developed into y at instant b: no more executions than intervals entered. */
  ghost predicate Develops(x: Task, a: Time, y: Task, b: Time) {
    && a <= b && y.interval == x.interval
    && (HasTicker(x) && x.interval > 0 ==>
          HasTicker(y) && y.created == x.created && Due(y) - Due(x) <= Position(y, b) - Position(x, a))
    && (HasTicker(y) && !HasTicker(x) ==> y.created >= a)
  }

  lemma DivideMonotone(a: int, b: int, d: int)
    requires d > 0 && a <= b
    ensures a / d <= b / d
  {
    if a / d > b / d {
      MulMonotone(b / d + 1, a / d, d);
    }
  }

  lemma DivideShift(a: int, k: int, d: int)
    requires d > 0
    ensures (a + k * d) / d == a / d + k
  {
    var p, q := a / d, (a + k * d) / d;
    if q > p + k {
      MulMonotone(p + k + 1, q, d);
    } else if q < p + k {
      MulMonotone(q + 1, p + k, d);
    }
  }

  /** A tick fires at most once in every interval since the ticker's creation. */
  lemma FireAdvances(task: Task, a: Step, now: Time)
    requires a.Fire? && task.interval > 0 && HasTicker(task) && TickerOnTime(task, now) && now >= task.next
    ensures Position(task, now) == Slot(task, now)
    ensures TaskAfter(a, task, now).ticks == Slot(task, now) + 1
  {
    var late := now - task.next;
    assert now - task.created == late + task.ticks * task.interval;
    DivideShift(late, task.ticks, task.interval);
    NextMultiple(task.interval, task.next, now);
  }

  lemma OwnStepDevelops(s: System, a: Step, task: Task)
    requires OfTask(a) && TaskEnabled(s, a, task) && Executions(task) && TickerOnTime(task, s.now)
    requires a.EndFirst? ==> task.interval > 0
    ensures Develops(task, s.now, TaskAfter(a, task, s.now), s.now)
  {
    if a.Fire? {
      FireAdvances(task, a, s.now);
    }
  }

  lemma TimeDevelops(task: Task, now: Time, to: Time)
    requires now <= to
    ensures Develops(task, now, task, to)
  {
    if task.interval > 0 {
      DivideMonotone(now - task.created, to - task.created, task.interval);
    }
  }

  lemma StepDevelops(s: System, a: Step, t: nat)
    requires Inv(s) && Enabled(s, a) && t < |s.tasks|
    ensures Develops(s.tasks[t], s.now, Apply(s, a).tasks[t], Apply(s, a).now)
  {
    var s' := Apply(s, a);
    if OfTask(a) && a.t == t && s'.tasks[t] != s.tasks[t] {
      OwnStepDevelops(s, a, s.tasks[t]);
    } else {
      assert HasTicker(s'.tasks[t]) ==> HasTicker(s.tasks[t]) && s'.tasks[t] == s.tasks[t];
      TimeDevelops(s.tasks[t], s.now, s'.now);
    }
  }

  lemma {:induction false} RunDevelops(s: System, steps: seq<Step>, t: nat)
    requires Inv(s) && Runs(s, steps) && t < |s.tasks|
    ensures |After(s, steps).tasks| == |s.tasks|
    ensures Develops(s.tasks[t], s.now, After(s, steps).tasks[t], After(s, steps).now)
    decreases |steps|
  {
    if steps != [] {
      StepInv(s, steps[0]);
      StepDevelops(s, steps[0], t);
      RunDevelops(Apply(s, steps[0]), steps[1..], t);
    }
  }

  /** A span of time enters at most one interval more than it contains. */
  lemma SlotsEntered(created: Time, a: Time, b: Time, interval: int)
    requires interval > 0 && a <= b
    ensures (b - created) / interval <= (a - created) / interval + (b - a) / interval + 1
  {
    var p, q := (a - created) / interval, (b - a) / interval;
    if (b - created) / interval > p + q + 1 {
      MulMonotone(p + q + 2, (b - created) / interval, interval);
      Distribute(interval, p + 1, q + 1);
    }
  }

  /**
   * Pacing over every window: however the run goes on from any point of any run, the executions of a
   * task that start in a span of time number at most three more than the whole intervals in the span.
   */
  lemma WindowPacing(intervals: seq<int>, now: Time, steps: seq<Step>, window: seq<Step>, t: nat)
    requires Runs(Initial(intervals, now), steps) && Runs(After(Initial(intervals, now), steps), window)
    requires t < |intervals| && intervals[t] > 0
    ensures var s := After(Initial(intervals, now), steps);
            |Starts(s, window, t)| <= 3 + (After(s, window).now - s.now) / intervals[t]
  {
    var init := Initial(intervals, now);
    var s := After(init, steps);
    InitialInv(intervals, now);
    RunInv(init, steps);
    RunDevelops(init, steps, t);
    StartsCounted(init, steps, t);
    RunInv(s, window);
    RunDevelops(s, window, t);
    StartsCounted(s, window, t);
    WindowBound(s.tasks[t], s.now, After(s, window).tasks[t], After(s, window).now);
  }

  lemma WindowBound(x: Task, a: Time, y: Task, b: Time)
    requires Develops(x, a, y, b) && x.interval > 0
    requires Executions(x) && TickerOnTime(x, a) && Executions(y) && TickerOnTime(y, b)
    ensures y.started - x.started <= 3 + (b - a) / x.interval
  {
    var i := x.interval;
    DivideMonotone(0, b - a, i);
    if HasTicker(y) {
      AddPeriods(y.ticks - 1, 1, i);
      WholePeriods(y.ticks, i, b - y.created);
      if HasTicker(x) {
        SlotsEntered(x.created, a, b, i);
      } else {
        DivideMonotone(b - y.created, b - a, i);
      }
    }
  }

  // ---------- Panics of time.NewTicker

  predicate Positive(s: System) {
    forall t :: 0 <= t < |s.tasks| ==> s.tasks[t].interval > 0
  }

  lemma {:induction false} PositiveNeverCrash(s: System, steps: seq<Step>)
    requires Positive(s) && !s.crashed && Runs(s, steps)
    ensures Positive(After(s, steps)) && !After(s, steps).crashed
    decreases |steps|
  {
    if steps != [] {
      PositiveNeverCrash(Apply(s, steps[0]), steps[1..]);
    }
  }

  /** The scheduler can run without ever crashing on a ticker exactly when every interval is positive. */
  lemma CrashesIffSomeIntervalNotPositive(intervals: seq<int>, now: Time)
    ensures (exists steps :: Runs(Initial(intervals, now), steps) && After(Initial(intervals, now), steps).crashed)
            <==> exists t :: 0 <= t < |intervals| && intervals[t] <= 0
  {
    var s := Initial(intervals, now);
    if t :| 0 <= t < |intervals| && intervals[t] <= 0 {
      var steps := SpawnFirst(intervals, now, t + 1);
      Extend(s, steps, Enter(t));
      Extend(s, steps + [Enter(t)], EndFirst(t));
    }
    if steps :| Runs(s, steps) && After(s, steps).crashed {
      if forall t :: 0 <= t < |intervals| ==> intervals[t] > 0 {
        PositiveNeverCrash(s, steps);
        assert false;
      }
    }
  }
}
