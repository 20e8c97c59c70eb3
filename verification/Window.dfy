/** The collectors of src/core.cpp that hand tasks to the pool and consume the futures oldest first, under
    every schedule: the bounded window of the tree hash, and, with a window as large as the job, the layer
    and chunk collectors. Each task loads the cancel flag once, and sets it before throwing. */
module Window {

  // ---------- states ----------

  datatype Task<T> = Unqueued | Queued | Working | Failing | Done(value: T) | Blank | Threw

  datatype Consumer = Collecting | Caught | Waiting | Raised | Returned

  /** A job of n tasks, at most `window` of them outstanding. Task i cannot open or read its range if fails(i),
      and otherwise computes value(i). When the consumer catches an exception, `drains` says whether it waits for
      the outstanding tasks. */
  datatype Job<!T> = Job(n: nat, window: nat, drains: bool, value: nat -> T, fails: nat -> bool)

  /** `next` tasks have been enqueued, and the results of the oldest |results| of them consumed; `crashed` tells
      whether a task has thrown for a reason of its own, such as a lack of memory. */
  datatype State<T> = State(tasks: seq<Task<T>>, cancelled: bool, next: nat, results: seq<Task<T>>, consumer: Consumer,
                            crashed: bool)

  predicate Init<T(==)>(job: Job<T>, s: State<T>) {
    job.window > 0 && |s.tasks| == job.n && (forall i :: 0 <= i < job.n ==> s.tasks[i] == Unqueued) &&
    !s.cancelled && !s.crashed && s.next == 0 && s.results == [] && s.consumer == Collecting
  }

  // ---------- steps ----------

  datatype Step =
    | Enqueue
    | Load(i: nat)       // a worker starts task i and reads the cancel flag
    | Finish(i: nat)     // it returns its value
    | Flag(i: nat)       // it cannot open or read its range, and sets the cancel flag
    | Throw(i: nat)      // it throws after setting the flag
    | Crash(i: nat)      // it throws for another reason, without setting the flag
    | Get                // the consumer receives the oldest outstanding result or exception
    | Cancel             // the consumer's handler sets the cancel flag
    | Rethrow
    | Return

  predicate Resolved<T>(t: Task<T>) { t.Done? || t.Blank? || t.Threw? }

  predicate Enabled<T>(job: Job<T>, s: State<T>, step: Step) {
    |s.tasks| == job.n &&
    match step
    case Enqueue => s.consumer == Collecting && s.next < job.n && s.next - |s.results| < job.window
    case Load(i) => i < job.n && s.tasks[i].Queued?
    case Finish(i) => i < job.n && s.tasks[i].Working? && !job.fails(i)
    case Flag(i) => i < job.n && s.tasks[i].Working? && job.fails(i)
    case Throw(i) => i < job.n && s.tasks[i].Failing?
    case Crash(i) => i < job.n && s.tasks[i].Working?
    case Get =>
      s.consumer == Collecting && |s.results| < s.next <= job.n && Resolved(s.tasks[|s.results|]) &&
      (s.next == job.n || s.next - |s.results| >= job.window)
    case Cancel => s.consumer == Caught
    case Rethrow => s.consumer == Waiting &&
      (job.drains ==> forall i :: 0 <= i < s.next && i < job.n ==> Resolved(s.tasks[i]))
    case Return => s.consumer == Collecting && s.next == job.n && |s.results| == job.n
  }

  function Apply<T>(job: Job<T>, s: State<T>, step: Step): State<T>
    requires Enabled(job, s, step)
  {
    match step
    case Enqueue => s.(tasks := s.tasks[s.next := Queued], next := s.next + 1)
    case Load(i) => s.(tasks := s.tasks[i := if s.cancelled then Blank else Working])
    case Finish(i) => s.(tasks := s.tasks[i := Done(job.value(i))])
    case Flag(i) => s.(tasks := s.tasks[i := Failing], cancelled := true)
    case Throw(i) => s.(tasks := s.tasks[i := Threw])
    case Crash(i) => s.(tasks := s.tasks[i := Threw], crashed := true)
    case Get =>
      if s.tasks[|s.results|].Threw? then s.(consumer := Caught)
      else s.(results := s.results + [s.tasks[|s.results|]])
    case Cancel => s.(cancelled := true, consumer := Waiting)
    case Rethrow => s.(consumer := Raised)
    case Return => s.(consumer := Returned)
  }

  // ---------- the invariant ----------

  /** An outstanding task that has failed, or is about to throw: its exception has not been consumed. */
  predicate Pending<T>(s: State<T>, i: int) {
    |s.results| <= i < s.next && i < |s.tasks| && (s.tasks[i].Failing? || s.tasks[i].Threw?)
  }

  predicate Ended(c: Consumer) { c == Caught || c == Waiting || c == Raised }

  ghost predicate Counts<T>(job: Job<T>, s: State<T>) {
    |s.tasks| == job.n && 0 < job.window && |s.results| <= s.next <= job.n && s.next - |s.results| <= job.window &&
    (forall i :: 0 <= i < job.n ==> (s.tasks[i].Unqueued? <==> s.next <= i))
  }

  /** A task that is done did not fail and has its value; one that throws fails, or some task has crashed. */
  ghost predicate Sound<T(!new)>(job: Job<T>, i: nat, t: Task<T>, crashed: bool) {
    match t
    case Done(value) => value == job.value(i) && !job.fails(i)
    case Failing => job.fails(i)
    case Threw => job.fails(i) || crashed
    case _ => true
  }

  ghost predicate Results<T(!new)>(job: Job<T>, s: State<T>)
    requires |s.tasks| == job.n
  {
    |s.results| <= job.n &&
    (forall i :: 0 <= i < |s.results| ==> s.results[i] == s.tasks[i] && (s.tasks[i].Done? || s.tasks[i].Blank?)) &&
    (forall i :: 0 <= i < job.n ==> Sound(job, i, s.tasks[i], s.crashed)) &&
    (s.consumer == Returned ==> |s.results| == job.n)
  }

  /** A raised flag is always explained: some failure is still to be consumed, or the consumer has caught one. */
  ghost predicate Explained<T>(s: State<T>) {
    (s.cancelled ==> Ended(s.consumer) || (s.consumer == Collecting && exists i :: Pending(s, i))) &&
    (forall i :: 0 <= i < |s.tasks| && (s.tasks[i].Blank? || s.tasks[i].Failing?) ==> s.cancelled) &&
    (Ended(s.consumer) ==> |s.results| < |s.tasks| && s.tasks[|s.results|].Threw?) &&
    (s.consumer == Waiting || s.consumer == Raised ==> s.cancelled)
  }

  ghost predicate Inv<T(!new)>(job: Job<T>, s: State<T>) {
    Counts(job, s) && Results(job, s) && Explained(s)
  }

  lemma StepCounts<T(!new)>(job: Job<T>, s: State<T>, step: Step)
    requires Inv(job, s) && Enabled(job, s, step)
    ensures Counts(job, Apply(job, s, step))
  {
  }

  lemma StepResults<T(!new)>(job: Job<T>, s: State<T>, step: Step)
    requires Inv(job, s) && Enabled(job, s, step)
    ensures Results(job, Apply(job, s, step))
  {
  }

  lemma StepExplained<T(!new)>(job: Job<T>, s: State<T>, step: Step)
    requires Inv(job, s) && Enabled(job, s, step)
    ensures Explained(Apply(job, s, step))
  {
    var r := Apply(job, s, step);
    if step.Flag? {
      assert r.consumer == Collecting ==> Pending(r, step.i);
    } else if i :| Pending(s, i) {
      assert r.consumer == Collecting ==> Pending(r, i);
    }
  }

  lemma StepInv<T(!new)>(job: Job<T>, s: State<T>, step: Step)
    requires Inv(job, s) && Enabled(job, s, step)
    ensures Inv(job, Apply(job, s, step))
  {
    StepCounts(job, s, step);
    StepResults(job, s, step);
    StepExplained(job, s, step);
  }

  // ---------- whole runs ----------

  predicate Possible<T>(job: Job<T>, s: State<T>, steps: seq<Step>)
    decreases steps
  {
    steps == [] || (Enabled(job, s, steps[0]) && Possible(job, Apply(job, s, steps[0]), steps[1..]))
  }

  function After<T>(job: Job<T>, s: State<T>, steps: seq<Step>): State<T>
    requires Possible(job, s, steps)
    decreases steps
  {
    if steps == [] then s else After(job, Apply(job, s, steps[0]), steps[1..])
  }

  /** Every schedule keeps the whole invariant. */
  lemma {:induction false} RunInv<T(!new)>(job: Job<T>, s: State<T>, steps: seq<Step>)
    requires Inv(job, s) && Possible(job, s, steps)
    ensures Inv(job, After(job, s, steps))
    decreases steps
  {
    if steps != [] {
      StepInv(job, s, steps[0]);
      RunInv(job, Apply(job, s, steps[0]), steps[1..]);
    }
  }

  function Values<T>(job: Job<T>): seq<Task<T>> { seq(job.n, i requires 0 <= i < job.n => Done(job.value(i))) }

  lemma InitInv<T(!new)>(job: Job<T>, s: State<T>)
    requires Init(job, s)
    ensures Inv(job, s)
  {
  }

  /** Under every schedule: at most `window` tasks are outstanding; a returned list holds every task's own
      value, in task order, and no cancelled placeholder, and no task fails; an exception is raised only if some
      task fails or has crashed. */
  lemma RunIsComplete<T(!new)>(job: Job<T>, s: State<T>, steps: seq<Step>)
    requires Init(job, s) && Possible(job, s, steps)
    ensures var r := After(job, s, steps);
      r.next - |r.results| <= job.window &&
      (r.consumer == Returned ==> r.results == Values(job) && forall i: nat :: i < job.n ==> !job.fails(i)) &&
      (r.consumer == Raised && !r.crashed ==> exists i: nat :: i < job.n && job.fails(i))
  {
    InitInv(job, s);
    RunInv(job, s, steps);
    var r := After(job, s, steps);
    if r.consumer == Returned {
      forall i: nat | i < job.n ensures !job.fails(i) { assert r.tasks[i].Done?; }
    }
  }

  /** So, whatever the schedule, a collector that has ended without a crash has returned if and only if no task
      fails. */
  lemma ReturnsIffNoTaskFails<T(!new)>(job: Job<T>, s: State<T>, steps: seq<Step>)
    requires Init(job, s) && Possible(job, s, steps) && !After(job, s, steps).crashed
    requires After(job, s, steps).consumer == Returned || After(job, s, steps).consumer == Raised
    ensures After(job, s, steps).consumer == Returned <==> forall i: nat :: i < job.n ==> !job.fails(i)
  {
    RunIsComplete(job, s, steps);
  }

  /** No task is queued or running. */
  predicate Idle<T>(s: State<T>) { forall i :: 0 <= i < |s.tasks| ==> Resolved(s.tasks[i]) || s.tasks[i].Unqueued? }

  /** When a draining collector has thrown, none of its tasks is queued or running any more. */
  lemma {:induction false} RaisedIsIdle<T(!new)>(job: Job<T>, s: State<T>, steps: seq<Step>)
    requires Inv(job, s) && job.drains && (s.consumer == Raised ==> Idle(s)) && Possible(job, s, steps)
    ensures After(job, s, steps).consumer == Raised ==> Idle(After(job, s, steps))
    decreases steps
  {
    if steps != [] {
      StepInv(job, s, steps[0]);
      RaisedIsIdle(job, Apply(job, s, steps[0]), steps[1..]);
    }
  }

  /** Once the flag is raised, no further task does any work: those that start return a blank at once. */
  lemma {:induction false} CancelledStartsNothing<T(!new)>(job: Job<T>, s: State<T>, steps: seq<Step>, i: nat)
    requires s.cancelled && Possible(job, s, steps) && i < |s.tasks|
    requires s.tasks[i].Unqueued? || s.tasks[i].Queued? || s.tasks[i].Blank?
    ensures var r := After(job, s, steps);
      r.cancelled && i < |r.tasks| && (r.tasks[i].Unqueued? || r.tasks[i].Queued? || r.tasks[i].Blank?)
    decreases steps
  {
    if steps != [] { CancelledStartsNothing(job, Apply(job, s, steps[0]), steps[1..], i); }
  }

  predicate Clean<T>(s: State<T>) {
    !s.cancelled && !s.crashed && !Ended(s.consumer) &&
    forall i :: 0 <= i < |s.tasks| ==> !s.tasks[i].Blank? && !s.tasks[i].Failing? && !s.tasks[i].Threw?
  }

  /** If no task fails or crashes, nothing is cancelled and the caller sees no exception. */
  lemma {:induction false} NoFailureNoException<T(!new)>(job: Job<T>, s: State<T>, steps: seq<Step>)
    requires Inv(job, s) && Clean(s) && Possible(job, s, steps)
    requires (forall i: nat :: i < job.n ==> !job.fails(i)) && forall i :: 0 <= i < |steps| ==> !steps[i].Crash?
    ensures Clean(After(job, s, steps))
    decreases steps
  {
    if steps != [] {
      StepInv(job, s, steps[0]);
      NoFailureNoException(job, Apply(job, s, steps[0]), steps[1..]);
    }
  }

  // ---------- progress ----------

  function Weight<T>(t: Task<T>): nat {
    if t.Unqueued? then 4 else if t.Queued? then 3 else if t.Working? then 2 else if t.Failing? then 1 else 0
  }

  function Weights<T>(tasks: seq<Task<T>>): nat { if tasks == [] then 0 else Weight(tasks[0]) + Weights(tasks[1..]) }

  function ConsumerWeight(c: Consumer): nat {
    if c == Collecting then 3 else if c == Caught then 2 else if c == Waiting then 1 else 0
  }

  function Measure<T>(job: Job<T>,
                      s: State<T>): int { Weights(s.tasks) + job.n - |s.results| + ConsumerWeight(s.consumer) }

  lemma {:induction false} WeightsAt<T>(tasks: seq<Task<T>>, i: nat, t: Task<T>)
    requires i < |tasks|
    ensures Weights(tasks[i := t]) == Weights(tasks) - Weight(tasks[i]) + Weight(t)
  {
    if i > 0 {
      WeightsAt(tasks[1..], i - 1, t);
      assert tasks[i := t][1..] == tasks[1..][i - 1 := t];
    } else {
      assert tasks[i := t][1..] == tasks[1..];
    }
  }

  lemma StepMeasure<T(!new)>(job: Job<T>, s: State<T>, step: Step)
    requires Inv(job, s) && Enabled(job, s, step)
    ensures Measure(job, Apply(job, s, step)) < Measure(job, s)
  {
    if step.Enqueue? {
      WeightsAt(s.tasks, s.next, Queued);
    } else if step.Load? || step.Finish? || step.Flag? || step.Throw? || step.Crash? {
      WeightsAt(s.tasks, step.i, Apply(job, s, step).tasks[step.i]);
    }
  }

  /** Every run ends: it has at most Measure steps. */
  lemma {:induction false} RunsEnd<T(!new)>(job: Job<T>, s: State<T>, steps: seq<Step>)
    requires Inv(job, s) && Possible(job, s, steps)
    ensures |steps| <= Measure(job, s)
    decreases steps
  {
    if steps != [] {
      StepInv(job, s, steps[0]);
      StepMeasure(job, s, steps[0]);
      RunsEnd(job, Apply(job, s, steps[0]), steps[1..]);
    } else {
      assert Weights(s.tasks) >= 0;
    }
  }

  function Move<T>(job: Job<T>, s: State<T>, i: nat): Step
    requires i < |s.tasks|
  {
    if s.tasks[i].Queued? then Load(i)
    else if s.tasks[i].Working? then (if job.fails(i) then Flag(i) else Finish(i))
    else Throw(i)
  }

  /** No deadlock: until the collector has returned or thrown, the consumer or a task it waits for can move. */
  lemma NoDeadlock<T(!new)>(job: Job<T>, s: State<T>)
    requires Inv(job, s) && s.consumer != Returned && s.consumer != Raised
    ensures exists step :: Enabled(job, s, step)
  {
    var front := |s.results|;
    match s.consumer
    case Caught => assert Enabled(job, s, Cancel);
    case Waiting =>
      if i :| 0 <= i < s.next && !Resolved(s.tasks[i]) {
        assert Enabled(job, s, Move(job, s, i));
      } else {
        assert Enabled(job, s, Rethrow);
      }
    case Collecting =>
      if s.next < job.n && s.next - front < job.window {
        assert Enabled(job, s, Enqueue);
      } else if front == s.next {
        assert Enabled(job, s, Return);
      } else if Resolved(s.tasks[front]) {
        assert Enabled(job, s, Get);
      } else {
        assert Enabled(job, s, Move(job, s, front));
      }
  }
}
