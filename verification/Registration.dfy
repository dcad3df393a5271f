/** registerCollectors and the Scheduler object that it fills and Exporter.Run starts. */
module Registration {
  import opened Prelude
  import opened Scheduling

  /** One entry of the collector table, with its configured interval in seconds. */
  datatype CollectorDef = CollectorDef(name: string, enabled: bool, intervalSeconds: int)

  datatype PeriodicTask = PeriodicTask(name: string, interval: int)

  const DEFAULT_INTERVAL: int := 30 * SECOND

  /** The configured interval as a time.Duration, replaced when it is not positive. */
  function IntervalOf(d: CollectorDef): (interval: int)
    ensures interval > 0
  {
    var configured := Wrap64(d.intervalSeconds * SECOND);
    if configured <= 0 then DEFAULT_INTERVAL else configured
  }

  /** A task for every enabled collector, in table order. */
  function TasksFor(defs: seq<CollectorDef>): seq<PeriodicTask> {
    if defs == [] then []
    else
      var front, d := TasksFor(defs[..|defs| - 1]), defs[|defs| - 1];
      if d.enabled then front + [PeriodicTask(d.name, IntervalOf(d))] else front
  }

  function IsEnabled(d: CollectorDef): bool {
    d.enabled
  }

  /** A configured number of seconds is kept when it is positive and fits, and replaced by half a minute when it is not positive. */
  predicate ScheduledEvery(interval: int, seconds: int) {
    && interval > 0
    && (0 < seconds <= 9_223_372_036 ==> interval == seconds * SECOND)
    && (-9_223_372_036 <= seconds <= 0 ==> interval == 30 * SECOND)
  }

  /** The tasks are the enabled collectors of the table, in order, each with its name and interval. */
  ghost predicate Registers(tasks: seq<PeriodicTask>, defs: seq<CollectorDef>) {
    var on := Filter(IsEnabled, defs);
    && |tasks| == |on|
    && forall i :: 0 <= i < |on| ==> tasks[i].name == on[i].name && ScheduledEvery(tasks[i].interval, on[i].intervalSeconds)
  }

  lemma {:induction false} TasksRegister(defs: seq<CollectorDef>)
    ensures Registers(TasksFor(defs), defs)
  {
    if defs != [] {
      TasksRegister(defs[..|defs| - 1]);
    }
  }

  function Intervals(tasks: seq<PeriodicTask>): (r: seq<int>)
    ensures |r| == |tasks|
  {
    seq(|tasks|, i requires 0 <= i < |tasks| => tasks[i].interval)
  }

  lemma {:induction false} IntervalsPositive(defs: seq<CollectorDef>)
    ensures forall i :: 0 <= i < |TasksFor(defs)| ==> TasksFor(defs)[i].interval > 0
  {
    if defs != [] {
      IntervalsPositive(defs[..|defs| - 1]);
    }
  }

  class Scheduler {
    var tasks: seq<PeriodicTask>
    var wg: int
    var goroutines: seq<Task>    // launched, in task order
    var cancellable: bool        // Start has stored its cancel function

    constructor ()
      ensures tasks == [] && wg == 0 && goroutines == [] && !cancellable
    {
      tasks, wg, goroutines, cancellable := [], 0, [], false;
    }

    method AddTask(task: PeriodicTask)
      modifies this`tasks
      ensures tasks == old(tasks) + [task]
    {
      tasks := tasks + [task];
    }

    /**
     * Add to the WaitGroup and spawn, once per task: a run of the machine from its initial state to
     * the end of the loop, which leaves every goroutine born and counted.
     */
    method Start(ghost now: Time) returns (ghost steps: seq<Step>)
      requires wg == 0 && goroutines == []
      modifies this
      ensures tasks == old(tasks) && cancellable
      ensures wg == |goroutines| == |tasks|
      ensures forall t :: 0 <= t < |tasks| ==> goroutines[t] == NewTask(tasks[t].interval).(phase := Born)
      ensures Runs(Initial(Intervals(tasks), now), steps)
      ensures After(Initial(Intervals(tasks), now), steps) ==
              System(now, false, false, false, Adding(|tasks|), wg, goroutines)
    {
      cancellable := true;
      ghost var initial := Initial(Intervals(tasks), now);
      ghost var machine := initial;
      steps := [];
      for i := 0 to |tasks|
        invariant tasks == old(tasks) && cancellable
        invariant wg == i == |goroutines|
        invariant Runs(initial, steps) && After(initial, steps) == machine
        invariant machine == System(now, false, false, false, Adding(i), wg, machine.tasks)
        invariant |machine.tasks| == |tasks|
        invariant forall t :: 0 <= t < i ==> goroutines[t] == machine.tasks[t] == NewTask(tasks[t].interval).(phase := Born)
        invariant forall t :: i <= t < |tasks| ==> machine.tasks[t] == NewTask(tasks[t].interval)
      {
        SpawnNext(initial, steps, i);
        steps := steps + [Proceed, Proceed];
        machine := machine.(main := Adding(i + 1), wg := wg + 1,
                            tasks := machine.tasks[i := machine.tasks[i].(phase := Born)]);
        wg := wg + 1;
        goroutines := goroutines + [NewTask(tasks[i].interval).(phase := Born)];
      }
      assert machine.tasks == goroutines;
    }
  }

  /** Creates, registers and schedules every enabled collector. */
  method RegisterCollectors(defs: seq<CollectorDef>, scheduler: Scheduler) returns (registry: seq<string>)
    modifies scheduler`tasks
    ensures scheduler.tasks == old(scheduler.tasks) + TasksFor(defs)
    ensures Registers(TasksFor(defs), defs)
    ensures |registry| == |TasksFor(defs)|
    ensures forall i :: 0 <= i < |registry| ==> registry[i] == TasksFor(defs)[i].name
  {
    registry := [];
    for i := 0 to |defs|
      invariant scheduler.tasks == old(scheduler.tasks) + TasksFor(defs[..i])
      invariant |registry| == |TasksFor(defs[..i])|
      invariant forall j :: 0 <= j < |registry| ==> registry[j] == TasksFor(defs[..i])[j].name
    {
      var d := defs[i];
      assert defs[..i + 1][..i] == defs[..i];
      if !d.enabled {
        continue;
      }
      registry := registry + [d.name];
      var interval := Wrap64(d.intervalSeconds * SECOND);
      if interval <= 0 {
        interval := 30 * SECOND;
      }
      scheduler.AddTask(PeriodicTask(d.name, interval));
    }
    assert defs[..|defs|] == defs;
    TasksRegister(defs);
  }

  /** Whatever the configuration, no run of the registered tasks ever dies creating a ticker. */
  lemma RegisteredTasksNeverCrash(defs: seq<CollectorDef>, now: Time, steps: seq<Step>)
    requires Runs(Initial(Intervals(TasksFor(defs)), now), steps)
    ensures !After(Initial(Intervals(TasksFor(defs)), now), steps).crashed
  {
    IntervalsPositive(defs);
    PositiveNeverCrash(Initial(Intervals(TasksFor(defs)), now), steps);
  }
}
