/** internal/scheduler/queue.go: a bounded, lossy FIFO drained by one consumer that recovers from panics. */
module TaskQueue {
  import opened Prelude

  /** How far the consumer is in the function literal that it calls for every task. */
  datatype Stage =
    | Entered    // nothing deferred yet
    | Armed      // the recovering function is deferred
    | Inside     // in fn()
    | Leaving    // fn has returned or panicked; deferred functions are due
    | Popping    // the frame is about to go; a panic still alive would leave it

  /** Where the consumer is: in its select, in the call for a task, or returned. */
  datatype Consumer =
    | Selecting
    | Calling(task: nat, stage: Stage, deferred: bool, panicking: bool)
    | Returned

  /** Tasks are identified by a number; buffered is the channel. crashed: a panic has ended the process. */
  datatype Queue = Queue(capacity: nat, buffered: seq<nat>, consumer: Consumer, crashed: bool,
                         submitted: seq<nat>, accepted: seq<nat>, dropped: seq<nat>, executed: seq<nat>)

  datatype Step =
    | Submit(task: nat)
    | Take          // the select receives a task
    | Stop          // the select sees the cancelled context
    | Defer
    | Call
    | Return        // fn comes back
    | Panic         // fn panics
    | RunDeferred   // the deferred function, if there is one, recovers
    | Pop           // the function literal's frame is left

  /** NewTaskQueue's buffer size. */
  function Capacity(bufferSize: int): (n: nat)
    ensures n >= 1 && (bufferSize >= 1 <==> n == bufferSize)
    ensures bufferSize <= 0 ==> n == 64
  {
    if bufferSize < 1 then 64 else bufferSize
  }

  function Empty(bufferSize: int): Queue {
    Queue(Capacity(bufferSize), [], Selecting, false, [], [], [], [])
  }

  /** The stage of the call at which the consumer can take this step. */
  function StageFor(a: Step): Option<Stage> {
    match a
    case Defer => Some(Entered)
    case Call => Some(Armed)
    case Return => Some(Inside)
    case Panic => Some(Inside)
    case RunDeferred => Some(Leaving)
    case Pop => Some(Popping)
    case _ => None
  }

  predicate Enabled(q: Queue, a: Step) {
    && !q.crashed
    && match a
       case Submit(_) => true
       case Take => q.consumer.Selecting? && q.buffered != []
       case Stop => q.consumer.Selecting?
       case _ => q.consumer.Calling? && StageFor(a) == Some(q.consumer.stage)
  }

  function Apply(q: Queue, a: Step): Queue
    requires Enabled(q, a)
  {
    var c := q.consumer;
    match a
    case Submit(task) =>
      if |q.buffered| < q.capacity then
        q.(buffered := q.buffered + [task], submitted := q.submitted + [task], accepted := q.accepted + [task])
      else q.(submitted := q.submitted + [task], dropped := q.dropped + [task])
    case Take => q.(buffered := q.buffered[1..], consumer := Calling(q.buffered[0], Entered, false, false))
    case Stop => q.(consumer := Returned)
    case Defer => q.(consumer := c.(stage := Armed, deferred := true))
    case Call => q.(consumer := c.(stage := Inside))
    case Return => q.(consumer := c.(stage := Leaving))
    case Panic => q.(consumer := c.(stage := Leaving, panicking := true))
    case RunDeferred => q.(consumer := c.(stage := Popping, panicking := c.panicking && !c.deferred))
    case Pop =>
      if c.panicking then q.(crashed := true)
      else q.(consumer := Selecting, executed := q.executed + [c.task])
  }

  predicate Runs(q: Queue, steps: seq<Step>)
    decreases |steps|
  {
    steps == [] || (Enabled(q, steps[0]) && Runs(Apply(q, steps[0]), steps[1..]))
  }

  function After(q: Queue, steps: seq<Step>): Queue
    requires Runs(q, steps)
    decreases |steps|
  {
    if steps == [] then q else After(Apply(q, steps[0]), steps[1..])
  }

  // ---------- The protocol

  function InProgress(q: Queue): seq<nat> {
    if q.consumer.Calling? then [q.consumer.task] else []
  }

  /** Accepted tasks are executed, in progress or buffered, in the order of their submission. */
  ghost predicate InOrder(q: Queue) {
    q.executed + InProgress(q) + q.buffered == q.accepted
  }

  /** Every submission was either accepted or dropped, and nothing is dropped before the capacity is used up. */
  ghost predicate Conserved(q: Queue) {
    && multiset(q.submitted) == multiset(q.accepted) + multiset(q.dropped)
    && |q.submitted| == |q.accepted| + |q.dropped|
    && |q.buffered| <= q.capacity && |q.buffered| <= |q.accepted|
    && (q.dropped != [] ==> |q.submitted| > q.capacity)
  }

  /** The process lives: wherever fn can panic a recovery is deferred, and no frame is left panicking. */
  predicate Guarded(q: Queue) {
    && !q.crashed
    && (q.consumer.Calling? ==>
          match q.consumer.stage
          case Entered => !q.consumer.panicking
          case Armed => q.consumer.deferred && !q.consumer.panicking
          case Inside => q.consumer.deferred && !q.consumer.panicking
          case Leaving => q.consumer.deferred
          case Popping => !q.consumer.panicking)
  }

  /** What every reachable queue satisfies, in every phase of a task, panicking or not. */
  ghost predicate Protocol(q: Queue) {
    InOrder(q) && Conserved(q) && Guarded(q)
  }

  lemma StepInOrder(q: Queue, a: Step)
    requires InOrder(q) && Enabled(q, a)
    ensures InOrder(Apply(q, a))
  {
    var q' := Apply(q, a);
    var (done, mine) := (q.executed, InProgress(q));
    match a
    case Submit(task) =>
      assert done + mine + (q.buffered + [task]) == (done + mine + q.buffered) + [task];
    case Take =>
      assert mine == [];
      assert done + [] + q.buffered == done + [q.buffered[0]] + q.buffered[1..];
    case Pop =>
      assert (done + mine) + [] + q.buffered == done + mine + q.buffered;
    case _ =>
  }

  lemma StepConserved(q: Queue, a: Step)
    requires Conserved(q) && Enabled(q, a)
    ensures Conserved(Apply(q, a))
  {
    if a.Submit? {
      Added(q.submitted, q.accepted, q.dropped, a.task);
    }
  }

  lemma Added(submitted: seq<nat>, accepted: seq<nat>, dropped: seq<nat>, task: nat)
    requires multiset(submitted) == multiset(accepted) + multiset(dropped)
    ensures multiset(submitted + [task]) == multiset(accepted + [task]) + multiset(dropped)
    ensures multiset(submitted + [task]) == multiset(accepted) + multiset(dropped + [task])
  {
    assert multiset(submitted + [task]) == multiset(submitted) + multiset{task};
    assert multiset(accepted + [task]) == multiset(accepted) + multiset{task};
    assert multiset(dropped + [task]) == multiset(dropped) + multiset{task};
  }

  lemma StepProtocol(q: Queue, a: Step)
    requires Protocol(q) && Enabled(q, a)
    ensures Protocol(Apply(q, a))
  {
    StepInOrder(q, a);
    StepConserved(q, a);
  }

  /**
   * In every reachable state, whatever panics, the process lives; the executed, running and buffered
   * tasks are the accepted ones in order, the buffer is within capacity, and every submission was
   * either accepted or dropped.
   */
  lemma {:induction false} QueueProtocol(q: Queue, steps: seq<Step>)
    requires Protocol(q) && Runs(q, steps)
    ensures Protocol(After(q, steps))
    decreases |steps|
  {
    if steps != [] {
      StepProtocol(q, steps[0]);
      QueueProtocol(Apply(q, steps[0]), steps[1..]);
    }
  }

  /** In particular from a new queue, whatever buffer size was asked for. */
  lemma ReachableQueue(bufferSize: int, steps: seq<Step>)
    requires Runs(Empty(bufferSize), steps)
    ensures Protocol(After(Empty(bufferSize), steps))
  {
    assert Empty(bufferSize).executed + [] + [] == [];
    QueueProtocol(Empty(bufferSize), steps);
  }

  /** The queue while the first i steps have been taken. */
  ghost function At(q: Queue, steps: seq<Step>, i: nat): Queue
    requires Runs(q, steps) && i <= |steps|
    decreases |steps|
  {
    if i == 0 then q else At(Apply(q, steps[0]), steps[1..], i - 1)
  }

  lemma {:induction false} AtStep(q: Queue, steps: seq<Step>, i: nat)
    requires Runs(q, steps) && i < |steps|
    ensures Enabled(At(q, steps, i), steps[i])
    ensures At(q, steps, i + 1) == Apply(At(q, steps, i), steps[i])
    decreases |steps|
  {
    if i > 0 {
      AtStep(Apply(q, steps[0]), steps[1..], i - 1);
    }
  }

  lemma {:induction false} AtProtocol(q: Queue, steps: seq<Step>, i: nat)
    requires Protocol(q) && Runs(q, steps) && i <= |steps|
    ensures Protocol(At(q, steps, i))
    decreases |steps|
  {
    if i > 0 {
      StepProtocol(q, steps[0]);
      AtProtocol(Apply(q, steps[0]), steps[1..], i - 1);
    }
  }

  lemma {:induction false} SameCapacity(q: Queue, steps: seq<Step>, i: nat)
    requires Runs(q, steps) && i <= |steps|
    ensures At(q, steps, i).capacity == q.capacity
    decreases |steps|
  {
    if i > 0 {
      SameCapacity(Apply(q, steps[0]), steps[1..], i - 1);
    }
  }

  /** At any point of any run a step drops a task exactly when it submits one to a full buffer. */
  lemma DropsOnlyWhenFull(q: Queue, steps: seq<Step>, i: nat)
    requires Protocol(q) && Runs(q, steps) && i < |steps|
    ensures var (before, after) := (At(q, steps, i), At(q, steps, i + 1));
            after.dropped != before.dropped <==> steps[i].Submit? && |before.buffered| == q.capacity
  {
    AtStep(q, steps, i);
    AtProtocol(q, steps, i);
    SameCapacity(q, steps, i);
  }

  // ---------- Panics

  /** It is the deferred recovery that keeps the process alive: a panic ends it exactly when none is deferred. */
  lemma PanicCrashesIffNotDeferred(q: Queue)
    requires Enabled(q, Panic)
    ensures Runs(q, [Panic, RunDeferred, Pop])
    ensures After(q, [Panic, RunDeferred, Pop]).crashed <==> !q.consumer.deferred
  {
    var unwound := Apply(q, Panic);
    var popping := Apply(unwound, RunDeferred);
    assert [Panic, RunDeferred, Pop][1..] == [RunDeferred, Pop] && [RunDeferred, Pop][1..] == [Pop] && [Pop][1..] == [];
    assert Runs(popping, [Pop]) && Runs(unwound, [RunDeferred, Pop]);
  }

  /** The queue as it would be had no task panicked. */
  function Calm(q: Queue): Queue {
    if q.consumer.Calling? then q.(consumer := q.consumer.(panicking := false)) else q
  }

  function CalmStep(a: Step): Step {
    if a.Panic? then Return else a
  }

  lemma CalmStepOf(q: Queue, a: Step)
    requires Guarded(q) && Enabled(q, a)
    ensures Guarded(Apply(q, a))
    ensures Enabled(Calm(q), CalmStep(a)) && Apply(Calm(q), CalmStep(a)) == Calm(Apply(q, a))
  {
  }

  /**
   * Panics are harmless: replacing every panic by a return gives a run that accepts, drops and executes
   * the same tasks in the same order and leaves the consumer at the same place.
   */
  lemma {:induction false} PanicsAreHarmless(q: Queue, steps: seq<Step>)
    requires Guarded(q) && Runs(q, steps)
    ensures Runs(Calm(q), Map(CalmStep, steps))
    ensures After(Calm(q), Map(CalmStep, steps)) == Calm(After(q, steps))
    decreases |steps|
  {
    if steps != [] {
      CalmStepOf(q, steps[0]);
      PanicsAreHarmless(Apply(q, steps[0]), steps[1..]);
      assert Map(CalmStep, steps)[1..] == Map(CalmStep, steps[1..]);
    }
  }

  // ---------- The object

  lemma {:induction false} RunsConcat(q: Queue, a: seq<Step>, b: seq<Step>)
    requires Runs(q, a) && Runs(After(q, a), b)
    ensures Runs(q, a + b) && After(q, a + b) == After(After(q, a), b)
    decreases |a|
  {
    if a == [] {
      assert a + b == b;
    } else {
      assert (a + b)[1..] == a[1..] + b;
      RunsConcat(Apply(q, a[0]), a[1..], b);
    }
  }

  function Submits(tasks: seq<nat>): (steps: seq<Step>)
    ensures |steps| == |tasks|
  {
    Map((task: nat) => Submit(task), tasks)
  }

  /**
   * One turn of the consumer's loop: tasks that others submit before the select looks at the channel,
   * tasks that they submit while it runs the one it received, and whether that one panics.
   */
  datatype Turn = Turn(before: seq<nat>, during: seq<nat>, panics: bool)

  function ServeSteps(t: Turn): seq<Step> {
    [Take, Defer, Call] + Submits(t.during) + [if t.panics then Panic else Return, RunDeferred, Pop]
  }

  /** What one turn does: a task is served if there is one when the select looks. */
  ghost function TurnSteps(q: Queue, t: Turn): seq<Step> {
    var arrivals := Submits(t.before);
    if Runs(q, arrivals) && After(q, arrivals).buffered != [] then arrivals + ServeSteps(t) else arrivals
  }

  /** The run of a consumer that makes these turns and then finds its context done. */
  ghost function Script(q: Queue, turns: seq<Turn>): seq<Step>
    decreases |turns|
  {
    if turns == [] then [Stop]
    else
      var mine := TurnSteps(q, turns[0]);
      if Runs(q, mine) then mine + Script(After(q, mine), turns[1..]) else mine
  }

  /** What the channel holds after these submissions: all of them, as far as they fit. */
  function Fitting(before: seq<nat>, tasks: seq<nat>, capacity: nat): seq<nat> {
    if |before + tasks| <= capacity then before + tasks else (before + tasks)[..capacity]
  }

  /** The queue object: ch is the buffered channel; state follows the machine step by step. */
  class TaskQueue {
    const capacity: nat
    var ch: seq<nat>
    ghost var state: Queue

    ghost predicate Valid()
      reads this
    {
      && state.capacity == capacity && state.buffered == ch && !state.crashed
      && 0 < capacity && |ch| <= capacity
    }

    constructor (bufferSize: int)
      ensures Valid() && state == Empty(bufferSize)
    {
      capacity := if bufferSize < 1 then 64 else bufferSize;
      ch := [];
      state := Empty(bufferSize);
    }

    method Enqueue(task: nat)
      requires Valid()
      modifies this
      ensures Valid() && state == Apply(old(state), Submit(task))
      ensures ch == if |old(ch)| < capacity then old(ch) + [task] else old(ch)
    {
      state := Apply(state, Submit(task));
      if |ch| < capacity {
        ch := ch + [task];
      }
    }

    /** Submissions made by other goroutines. */
    method EnqueueAll(tasks: seq<nat>)
      requires Valid()
      modifies this
      ensures Valid()
      ensures Runs(old(state), Submits(tasks)) && state == After(old(state), Submits(tasks))
      ensures state.consumer == old(state).consumer && state.executed == old(state).executed
      ensures ch == Fitting(old(ch), tasks, capacity)
    {
      ghost var q := state;
      for i := 0 to |tasks|
        invariant Valid() && state.consumer == q.consumer && state.executed == q.executed
        invariant ch == Fitting(old(ch), tasks[..i], capacity)
        invariant Runs(q, Submits(tasks[..i])) && state == After(q, Submits(tasks[..i]))
      {
        ghost var now := state;
        Enqueue(tasks[i]);
        OneStep(now, Submit(tasks[i]));
        RunsConcat(q, Submits(tasks[..i]), [Submit(tasks[i])]);
        assert Submits(tasks[..i + 1]) == Submits(tasks[..i]) + [Submit(tasks[i])];
      }
      assert tasks[..|tasks|] == tasks;
    }

    /** The select receives a task and the function literal runs it; crashed means that a panic got out. */
    method Serve(t: Turn) returns (crashed: bool)
      requires Valid() && ch != [] && state.consumer.Selecting?
      modifies this
      ensures Valid() && state.consumer.Selecting? && !crashed
      ensures Runs(old(state), ServeSteps(t)) && state == After(old(state), ServeSteps(t))
      ensures state.executed == old(state.executed) + [old(ch)[0]] && ch == Fitting(old(ch)[1..], t.during, capacity)
    {
      ghost var q := state;
      ch := ch[1..];
      Follow3(q, Take, Defer, Call);
      state := After(q, [Take, Defer, Call]);
      var recovers := true;

      EnqueueAll(t.during);
      RunsConcat(q, [Take, Defer, Call], Submits(t.during));

      var panicking := t.panics;
      ghost var inside := state;
      ghost var last := [if t.panics then Panic else Return, RunDeferred, Pop];
      Follow3(inside, last[0], RunDeferred, Pop);
      RunsConcat(q, [Take, Defer, Call] + Submits(t.during), last);
      state := After(inside, last);
      if recovers && panicking {
        panicking := false;
      }
      crashed := panicking;
    }

    /** One turn of the loop. */
    method TakeTurn(t: Turn) returns (crashed: bool)
      requires Valid() && state.consumer.Selecting?
      modifies this
      ensures Valid() && state.consumer.Selecting? && !crashed
      ensures Runs(old(state), TurnSteps(old(state), t)) && state == After(old(state), TurnSteps(old(state), t))
      ensures var waiting := Fitting(old(ch), t.before, capacity);
              if waiting == [] then state.executed == old(state.executed) && ch == []
              else state.executed == old(state.executed) + [waiting[0]] && ch == Fitting(waiting[1..], t.during, capacity)
    {
      ghost var q := state;
      EnqueueAll(t.before);
      crashed := false;
      if ch != [] {
        crashed := Serve(t);
        RunsConcat(q, Submits(t.before), ServeSteps(t));
      }
    }

    /**
     * The consumer's loop over these turns, until the select finds the context done. The tasks that
     * were buffered at the start are executed first, in order, one a turn.
     */
    method Start(turns: seq<Turn>)
      requires Valid() && state.consumer.Selecting?
      modifies this
      ensures Valid() && state.consumer.Returned?
      ensures Runs(old(state), Script(old(state), turns)) && state == After(old(state), Script(old(state), turns))
      ensures var k := if |turns| < |old(ch)| then |turns| else |old(ch)|;
              old(state.executed) + old(ch)[..k] <= state.executed
      ensures |state.executed| <= |old(state.executed)| + |turns|
    {
      ghost var q, steps := state, [];
      for i := 0 to |turns|
        invariant Valid() && state.consumer.Selecting?
        invariant Along(q, turns, steps, state, turns[i..])
        invariant Backlog(q.executed, old(ch), state.executed, ch, i)
      {
        ghost var now, mine := state, TurnSteps(state, turns[i]);
        ghost var (waiting, done) := (ch, state.executed);
        var crashed := TakeTurn(turns[i]);
        BacklogNext(q.executed, old(ch), done, waiting, i, state.executed, ch, turns[i].before, turns[i].during, capacity);
        ScriptCons(now, turns[i..]);
        AlongNext(q, turns, steps, now, turns[i..], mine);
        assert turns[i..][1..] == turns[i + 1..];
        steps := steps + mine;
      }
      OneStep(state, Stop);
      RunsConcat(q, steps, [Stop]);
      state := Apply(state, Stop);
    }
  }

  /** After i turns: the first i of the backlog are executed, before anything else, and the rest is still first in line. */
  ghost predicate Backlog(executed: seq<nat>, backlog: seq<nat>, executed': seq<nat>, ch: seq<nat>, i: nat) {
    && |executed'| <= |executed| + i
    && if i < |backlog| then executed' == executed + backlog[..i] && backlog[i..] <= ch
       else executed + backlog <= executed'
  }

  lemma BacklogNext(executed: seq<nat>, backlog: seq<nat>, done: seq<nat>, waiting: seq<nat>, i: nat,
                    done': seq<nat>, waiting': seq<nat>, before: seq<nat>, during: seq<nat>, capacity: nat)
    requires Backlog(executed, backlog, done, waiting, i) && |waiting| <= capacity
    requires var offered := Fitting(waiting, before, capacity);
             if offered == [] then done' == done && waiting' == []
             else done' == done + [offered[0]] && waiting' == Fitting(offered[1..], during, capacity)
    ensures Backlog(executed, backlog, done', waiting', i + 1)
  {
    var offered := Fitting(waiting, before, capacity);
    assert waiting <= offered;
    if i < |backlog| {
      assert offered[0] == backlog[i];
      PrefixSnoc(backlog, i);
      ConcatAssociates(executed, backlog[..i], [backlog[i]]);
      assert backlog[..|backlog|] == backlog;
      if i + 1 < |backlog| {
        assert backlog[i + 1..] == backlog[i..][1..];
        assert offered[1..] <= waiting';
      }
    }
  }

  /** steps is the part of the script that leads to now; the rest of it serves the remaining turns. */
  ghost predicate Along(q: Queue, turns: seq<Turn>, steps: seq<Step>, now: Queue, rest: seq<Turn>) {
    Runs(q, steps) && After(q, steps) == now && steps + Script(now, rest) == Script(q, turns)
  }

  lemma ScriptCons(now: Queue, rest: seq<Turn>)
    requires rest != [] && Runs(now, TurnSteps(now, rest[0]))
    ensures var mine := TurnSteps(now, rest[0]);
            Script(now, rest) == mine + Script(After(now, mine), rest[1..])
  {
  }

  lemma AlongNext(q: Queue, turns: seq<Turn>, steps: seq<Step>, now: Queue, rest: seq<Turn>, mine: seq<Step>)
    requires Along(q, turns, steps, now, rest) && rest != [] && Runs(now, mine)
    requires Script(now, rest) == mine + Script(After(now, mine), rest[1..])
    ensures Along(q, turns, steps + mine, After(now, mine), rest[1..])
  {
    RunsConcat(q, steps, mine);
    ConcatAssociates(steps, mine, Script(After(now, mine), rest[1..]));
  }

  lemma OneStep(q: Queue, a: Step)
    requires Enabled(q, a)
    ensures Runs(q, [a]) && After(q, [a]) == Apply(q, a)
  {
    assert [a][1..] == [];
  }

  lemma Follow3(q: Queue, a: Step, b: Step, c: Step)
    requires Enabled(q, a)
    requires Enabled(Apply(q, a), b) && Enabled(Apply(Apply(q, a), b), c)
    ensures Runs(q, [a, b, c]) && After(q, [a, b, c]) == Apply(Apply(Apply(q, a), b), c)
  {
    OneStep(q, a);
    OneStep(Apply(q, a), b);
    OneStep(Apply(Apply(q, a), b), c);
    RunsConcat(q, [a], [b]);
    RunsConcat(q, [a] + [b], [c]);
    assert [a] + [b] + [c] == [a, b, c];
  }
}
