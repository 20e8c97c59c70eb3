/** The thread pool of src/thread_pool.h as a transition system: one mutex, one condition variable,
    any number of workers and clients, and a destructor, interleaved in every possible way. */
module ThreadPool {
  // ---------- states ----------

  /** A worker wants the mutex, holds it, is blocked in the wait, runs a task, or has returned. */
  datatype Worker = Contending | Locked | Blocked | Running(task: nat) | Exited

  /** A thread inside `enqueue`: before, in and after the critical section. */
  datatype Client = Outside | Wanting | Holding | Notifying

  /** The destructor: before and in its critical section, before notify_all, and joining worker k. */
  datatype Destructor = NotCalled | WantsStop | HoldsStop | BeforeNotifyAll | Joining(k: nat)

  datatype Owner = Free | Worker(w: nat) | Client(c: nat) | Destroyer

  /** Tasks are named by the order of their acceptance; `accepted` counts them, `taken` counts those
      dequeued, so the queue holds the tasks from `taken` up to `accepted`. */
  datatype State = State(workers: seq<Worker>, clients: seq<Client>, destructor: Destructor, owner: Owner,
                         queue: seq<nat>, stop: bool, accepted: nat, finished: set<nat>)

  predicate Init(s: State) {
    |s.workers| > 0 && (forall i :: 0 <= i < |s.workers| ==> s.workers[i] == Contending) &&
    (forall i :: 0 <= i < |s.clients| ==> s.clients[i] == Outside) &&
    s.destructor == NotCalled && s.owner == Free && s.queue == [] && !s.stop && s.accepted == 0 && s.finished == {}
  }

  // ---------- steps ----------

  datatype Step =
    | Acquire(w: nat)               // a worker takes the mutex
    | Check(w: nat)                 // it evaluates the predicate: returns, blocks or takes a task
    | Finish(w: nat)                // it ends its task
    | Spurious(w: nat)              // it wakes up for no reason
    | Call(c: nat)                  // a client calls enqueue
    | ClientAcquire(c: nat)
    | Push(c: nat)                  // throws on a stopped pool, otherwise appends a task
    | NotifyOne(c: nat, w: nat)     // outside the critical section; wakes worker w, if any is blocked
    | Destroy
    | DestroyAcquire
    | SetStop
    | NotifyAll
    | Join

  predicate Enabled(s: State, step: Step) {
    match step
    case Acquire(w) => w < |s.workers| && s.workers[w] == Contending && s.owner == Free
    case Check(w) => w < |s.workers| && s.workers[w] == Locked
    case Finish(w) => w < |s.workers| && s.workers[w].Running?
    case Spurious(w) => w < |s.workers| && s.workers[w] == Blocked
    case Call(c) => c < |s.clients| && s.clients[c] == Outside
    case ClientAcquire(c) => c < |s.clients| && s.clients[c] == Wanting && s.owner == Free
    case Push(c) => c < |s.clients| && s.clients[c] == Holding
    case NotifyOne(c, w) => c < |s.clients| && s.clients[c] == Notifying &&
      ((w < |s.workers| && s.workers[w] == Blocked) || Blocked !in s.workers)
    case Destroy => s.destructor == NotCalled
    case DestroyAcquire => s.destructor == WantsStop && s.owner == Free
    case SetStop => s.destructor == HoldsStop
    case NotifyAll => s.destructor == BeforeNotifyAll
    case Join => s.destructor.Joining? && s.destructor.k < |s.workers| && s.workers[s.destructor.k] == Exited
  }

  function Woken(w: Worker): Worker { if w == Blocked then Contending else w }

  function WakeAll(workers: seq<Worker>): (r: seq<Worker>)
    ensures |r| == |workers| && forall i :: 0 <= i < |workers| ==> r[i] == Woken(workers[i])
  {
    seq(|workers|, i requires 0 <= i < |workers| => Woken(workers[i]))
  }

  function Apply(s: State, step: Step): State
    requires Enabled(s, step)
  {
    match step
    case Acquire(w) => s.(workers := s.workers[w := Locked], owner := Owner.Worker(w))
    case Check(w) =>
      if s.queue == [] then
        s.(workers := s.workers[w := if s.stop then Exited else Blocked], owner := Free)
      else
        s.(workers := s.workers[w := Running(s.queue[0])], queue := s.queue[1..], owner := Free)
    case Finish(w) => s.(workers := s.workers[w := Contending], finished := s.finished + {s.workers[w].task})
    case Spurious(w) => s.(workers := s.workers[w := Contending])
    case Call(c) => s.(clients := s.clients[c := Wanting])
    case ClientAcquire(c) => s.(clients := s.clients[c := Holding], owner := Owner.Client(c))
    case Push(c) =>
      if s.stop then s.(clients := s.clients[c := Outside], owner := Free)
      else s.(clients := s.clients[c := Notifying], owner := Free, queue := s.queue + [s.accepted],
        accepted := s.accepted + 1)
    case NotifyOne(c, w) =>
      s.(clients := s.clients[c := Outside], workers := if Blocked in s.workers then s.workers[w := Contending]
        else s.workers)
    case Destroy => s.(destructor := WantsStop)
    case DestroyAcquire => s.(destructor := HoldsStop, owner := Destroyer)
    case SetStop => s.(destructor := BeforeNotifyAll, stop := true, owner := Free)
    case NotifyAll => s.(destructor := Joining(0), workers := WakeAll(s.workers))
    case Join => s.(destructor := Joining(s.destructor.k + 1))
  }

  // ---------- the invariant ----------

  /** The mutex has at most one holder, and `owner` names it. */
  predicate Exclusive(s: State) {
    (forall i :: 0 <= i < |s.workers| ==> (s.workers[i] == Locked <==> s.owner == Owner.Worker(i))) &&
    (forall i :: 0 <= i < |s.clients| ==> (s.clients[i] == Holding <==> s.owner == Owner.Client(i))) &&
    (s.destructor == HoldsStop <==> s.owner == Destroyer) &&
    (s.owner.Worker? ==> s.owner.w < |s.workers|) && (s.owner.Client? ==> s.owner.c < |s.clients|)
  }

  function Taken(s: State): int { s.accepted - |s.queue| }

  /** The queue holds the accepted tasks that nobody has taken, in the order of acceptance. */
  predicate Fifo(s: State) {
    |s.queue| <= s.accepted && forall i :: 0 <= i < |s.queue| ==> s.queue[i] == Taken(s) + i
  }

  predicate Runs(s: State, i: int, task: nat) { 0 <= i < |s.workers| && s.workers[i] == Running(task) }

  /** Every taken task is finished or runs in exactly one worker, and no other task is either. */
  ghost predicate ExactlyOnce(s: State) {
    (forall t: nat :: t in s.finished ==> t < Taken(s)) &&
    (forall i, t: nat :: Runs(s, i, t) ==> t < Taken(s) && t !in s.finished) &&
    (forall i, j, t: nat :: Runs(s, i, t) && Runs(s, j, t) ==> i == j) &&
    (forall t: nat :: t < Taken(s) && t !in s.finished ==> exists i :: Runs(s, i, t))
  }

  predicate Awake(s: State, i: int) { 0 <= i < |s.workers| && s.workers[i] != Blocked && s.workers[i] != Exited }

  predicate Notifies(s: State, c: int) { 0 <= c < |s.clients| && s.clients[c] == Notifying }

  /** While tasks wait, a worker is awake or a notification is on its way. */
  ghost predicate NoLostWakeup(s: State) {
    s.queue != [] ==> (exists i :: Awake(s, i)) || (exists c :: Notifies(s, c))
  }

  /** `stop` is set once; a worker returns only when nothing is queued; a join finds no sleeping worker. */
  predicate Shutdown(s: State) {
    (s.stop <==> s.destructor == BeforeNotifyAll || s.destructor.Joining?) &&
    (forall i :: 0 <= i < |s.workers| && s.workers[i] == Exited ==> s.stop && s.queue == []) &&
    (s.destructor.Joining? ==> s.destructor.k <= |s.workers|) &&
    (forall i :: 0 <= i < |s.workers| && s.destructor.Joining? ==> s.workers[i] != Blocked) &&
    (forall i :: 0 <= i < |s.workers| && s.destructor.Joining? && i < s.destructor.k ==> s.workers[i] == Exited)
  }

  ghost predicate Inv(s: State) {
    |s.workers| > 0 && Exclusive(s) && Fifo(s) && ExactlyOnce(s) && NoLostWakeup(s) && Shutdown(s)
  }

  lemma InitInv(s: State)
    requires Init(s)
    ensures Inv(s)
  {
  }

  lemma StepExclusive(s: State, step: Step)
    requires Inv(s) && Enabled(s, step)
    ensures Exclusive(Apply(s, step))
  {
  }

  lemma StepFifo(s: State, step: Step)
    requires Inv(s) && Enabled(s, step)
    ensures Fifo(Apply(s, step)) && Taken(s) <= Taken(Apply(s, step))
  {
  }

  lemma TakesOnce(s: State, w: nat)
    requires Inv(s) && Enabled(s, Check(w)) && s.queue != []
    ensures ExactlyOnce(Apply(s, Check(w)))
  {
    var r := Apply(s, Check(w));
    assert forall i, t: nat :: Runs(r, i, t) <==> if i == w then t == Taken(s) else Runs(s, i, t);
    forall t: nat | t < Taken(r) && t !in r.finished ensures exists i :: Runs(r, i, t) {
      if t < Taken(s) {
        var i :| Runs(s, i, t);
        assert Runs(r, i, t);
      } else {
        assert Runs(r, w, t);
      }
    }
  }

  lemma FinishesOnce(s: State, w: nat)
    requires Inv(s) && Enabled(s, Finish(w))
    ensures ExactlyOnce(Apply(s, Finish(w)))
  {
    var r := Apply(s, Finish(w));
    assert Runs(s, w, s.workers[w].task);
    assert forall i, t: nat :: Runs(r, i, t) <==> i != w && Runs(s, i, t);
    forall t: nat | t < Taken(r) && t !in r.finished ensures exists i :: Runs(r, i, t) {
      var i :| Runs(s, i, t);
      assert Runs(r, i, t);
    }
  }

  lemma StepExactlyOnce(s: State, step: Step)
    requires Inv(s) && Enabled(s, step)
    ensures ExactlyOnce(Apply(s, step))
  {
    if step.Check? && s.queue != [] {
      TakesOnce(s, step.w);
    } else if step.Finish? {
      FinishesOnce(s, step.w);
    } else {
      var r := Apply(s, step);
      assert Taken(r) == Taken(s) && r.finished == s.finished;
      assert forall i, t: nat :: Runs(r, i, t) <==> Runs(s, i, t);
    }
  }

  lemma StepNoLostWakeup(s: State, step: Step)
    requires Inv(s) && Enabled(s, step)
    ensures NoLostWakeup(Apply(s, step))
  {
    var r := Apply(s, step);
    if r.queue != [] {
      match step
      case Push(c) =>
        if !s.stop { assert Notifies(r, c); }
        else if i :| Awake(s, i) { assert Awake(r, i); }
        else { var d :| Notifies(s, d); assert Notifies(r, d); }
      case NotifyOne(c, w) => assert Awake(r, if Blocked in s.workers then w else 0);
      case Acquire(w) => assert Awake(r, w);
      case Check(w) => assert Awake(r, w);
      case Finish(w) => assert Awake(r, w);
      case Spurious(w) => assert Awake(r, w);
      case _ =>
        if i :| Awake(s, i) { assert Awake(r, i); } else { var c :| Notifies(s, c); assert Notifies(r, c); }
    }
  }

  lemma StepShutdown(s: State, step: Step)
    requires Inv(s) && Enabled(s, step)
    ensures Shutdown(Apply(s, step))
  {
  }

  // ---------- whole runs ----------

  predicate Possible(s: State, steps: seq<Step>)
    decreases steps
  {
    steps == [] || (Enabled(s, steps[0]) && Possible(Apply(s, steps[0]), steps[1..]))
  }

  function After(s: State, steps: seq<Step>): State
    requires Possible(s, steps)
    decreases steps
  {
    if steps == [] then s else After(Apply(s, steps[0]), steps[1..])
  }

  /** The tasks that workers take from the queue, in time order. */
  function Dequeued(s: State, steps: seq<Step>): seq<nat>
    requires Possible(s, steps)
    decreases steps
  {
    if steps == [] then []
    else (if steps[0].Check? && s.queue != [] then [s.queue[0]] else []) + Dequeued(Apply(s, steps[0]), steps[1..])
  }

  /** The tasks that workers run to their end, in time order. */
  function Ended(s: State, steps: seq<Step>): seq<nat>
    requires Possible(s, steps)
    decreases steps
  {
    if steps == [] then []
    else (if steps[0].Finish? then [s.workers[steps[0].w].task] else []) + Ended(Apply(s, steps[0]), steps[1..])
  }

  lemma StepInv(s: State, step: Step)
    requires Inv(s) && Enabled(s, step)
    ensures Inv(Apply(s, step))
  {
    StepExclusive(s, step);
    StepFifo(s, step);
    StepExactlyOnce(s, step);
    StepNoLostWakeup(s, step);
    StepShutdown(s, step);
    assert |Apply(s, step).workers| == |s.workers|;
  }

  /** Every interleaving, spurious wakeups included, keeps the whole invariant. */
  lemma {:induction false} RunInv(s: State, steps: seq<Step>)
    requires Inv(s) && Possible(s, steps)
    ensures Inv(After(s, steps)) && Taken(s) <= Taken(After(s, steps))
    decreases steps
  {
    if steps != [] {
      StepInv(s, steps[0]);
      StepFifo(s, steps[0]);
      RunInv(Apply(s, steps[0]), steps[1..]);
    }
  }

  /** Tasks leave the queue in the order of acceptance, each exactly once, none skipped. */
  lemma {:induction false} DequeuedInOrder(s: State, steps: seq<Step>)
    requires Inv(s) && Possible(s, steps)
    ensures |Dequeued(s, steps)| == Taken(After(s, steps)) - Taken(s)
    ensures forall i :: 0 <= i < |Dequeued(s, steps)| ==> Dequeued(s, steps)[i] == Taken(s) + i
    decreases steps
  {
    if steps != [] {
      StepInv(s, steps[0]);
      DequeuedInOrder(Apply(s, steps[0]), steps[1..]);
    }
  }

  /** No task ends twice, and the tasks that end are the ones recorded as finished. */
  lemma {:induction false} EndedOnce(s: State, steps: seq<Step>)
    requires Inv(s) && Possible(s, steps)
    ensures forall t :: t in Ended(s, steps) <==> t in After(s, steps).finished && t !in s.finished
    ensures forall i, j :: 0 <= i < j < |Ended(s, steps)| ==> Ended(s, steps)[i] != Ended(s, steps)[j]
    ensures s.finished <= After(s, steps).finished
    decreases steps
  {
    if steps != [] {
      StepInv(s, steps[0]);
      EndedOnce(Apply(s, steps[0]), steps[1..]);
      if steps[0].Finish? { assert Runs(s, steps[0].w, s.workers[steps[0].w].task); }
    }
  }

  /** From the moment the destructor stops the pool, no task is accepted any more. */
  lemma {:induction false} StopIsFinal(s: State, steps: seq<Step>)
    requires s.stop && Possible(s, steps)
    ensures After(s, steps).stop && After(s, steps).accepted == s.accepted
    decreases steps
  {
    if steps != [] { StopIsFinal(Apply(s, steps[0]), steps[1..]); }
  }

  /** The calls of enqueue that find the pool running when they hold the mutex; the others throw. */
  function Submissions(s: State, steps: seq<Step>): nat
    requires Possible(s, steps)
    decreases steps
  {
    if steps == [] then 0
    else (if steps[0].Push? && !s.stop then 1 else 0) + Submissions(Apply(s, steps[0]), steps[1..])
  }

  /** Every one of them is accepted, under the next number, and nothing else is. */
  lemma {:induction false} EverySubmissionAccepted(s: State, steps: seq<Step>)
    requires Possible(s, steps)
    ensures After(s, steps).accepted == s.accepted + Submissions(s, steps)
    decreases steps
  {
    if steps != [] { EverySubmissionAccepted(Apply(s, steps[0]), steps[1..]); }
  }

  /** A thread that wants to enqueue can do so while the mutex is free: its task is the last in the queue of a running
      pool, and a stopped pool refuses it. */
  lemma EnqueueWorks(s: State, c: nat)
    requires s.owner == Free && c < |s.clients| && s.clients[c] == Outside
    ensures var steps := [Call(c), ClientAcquire(c), Push(c)];
      Possible(s, steps) &&
      After(s, steps) == if s.stop then s
        else s.(clients := s.clients[c := Notifying], queue := s.queue + [s.accepted], accepted := s.accepted + 1)
  {
    var s1 := Apply(s, Call(c));
    var s2 := Apply(s1, ClientAcquire(c));
    var s3 := Apply(s2, Push(c));
    assert s3.clients == s.clients[c := if s.stop then Outside else Notifying];
    assert [Call(c), ClientAcquire(c), Push(c)][1..] == [ClientAcquire(c), Push(c)];
    assert [ClientAcquire(c), Push(c)][1..] == [Push(c)];
    assert [Push(c)][1..] == [];
    assert Possible(s3, []) && After(s3, []) == s3;
    assert Possible(s2, [Push(c)]) && After(s2, [Push(c)]) == s3;
  }

  /** A worker that has returned does not come back, whoever is notified. */
  lemma {:induction false} ExitedIsFinal(s: State, steps: seq<Step>, w: nat)
    requires Possible(s, steps) && w < |s.workers| && s.workers[w] == Exited
    ensures |After(s, steps).workers| == |s.workers| && After(s, steps).workers[w] == Exited
    decreases steps
  {
    if steps != [] { ExitedIsFinal(Apply(s, steps[0]), steps[1..], w); }
  }

  predicate DestructorReturned(s: State) { s.destructor == Joining(|s.workers|) }

  function UpTo(n: nat): seq<nat> { seq(n, (i: nat) => i) }

  lemma AllFinished(s: State)
    requires Inv(s) && s.queue == [] && forall i :: 0 <= i < |s.workers| ==> !s.workers[i].Running?
    ensures forall t: nat :: t in s.finished <==> t < s.accepted
  {
    assert forall i, t: nat :: !Runs(s, i, t);
  }

  lemma {:induction false} OccursOnce(q: seq<nat>, t: nat)
    requires forall i, j :: 0 <= i < j < |q| ==> q[i] != q[j]
    ensures multiset(q)[t] == if t in q then 1 else 0
  {
    if q != [] {
      assert q == [q[0]] + q[1..];
      OccursOnce(q[1..], t);
    }
  }

  lemma OnceEach(p: seq<nat>, n: nat)
    requires forall i, j :: 0 <= i < j < |p| ==> p[i] != p[j]
    requires forall t: nat :: t in p <==> t < n
    ensures multiset(p) == multiset(UpTo(n))
  {
    var a: multiset<nat>, b: multiset<nat> := multiset(p), multiset(UpTo(n));
    forall t: nat ensures a[t] == b[t] {
      OccursOnce(p, t);
      OccursOnce(UpTo(n), t);
      if t < n { assert UpTo(n)[t] == t; }
    }
  }

  /** When the destructor returns, every task submitted to the running pool has been taken, in order, and run to its end
      exactly once. */
  lemma DestructorDrains(s: State, steps: seq<Step>)
    requires Init(s) && Possible(s, steps) && DestructorReturned(After(s, steps))
    ensures Dequeued(s, steps) == UpTo(Submissions(s, steps))
    ensures multiset(Ended(s, steps)) == multiset(UpTo(Submissions(s, steps)))
  {
    InitInv(s);
    EverySubmissionAccepted(s, steps);
    RunInv(s, steps);
    DequeuedInOrder(s, steps);
    EndedOnce(s, steps);
    var r := After(s, steps);
    assert r.workers[0] == Exited;
    AllFinished(r);
    OnceEach(Ended(s, steps), r.accepted);
  }

  // ---------- progress ----------

  /** The steps a thread takes by itself, with no new call and no spurious wakeup. */
  predicate Internal(step: Step) { !step.Spurious? && !step.Call? && !step.Destroy? }

  function WorkerWeight(w: Worker): nat {
    match w case Contending => 2 case Locked => 1 case Blocked => 0 case Running(_) => 3 case Exited => 0
  }

  function ClientWeight(c: Client): nat {
    match c case Outside => 0 case Wanting => 8 case Holding => 7 case Notifying => 3
  }

  function WorkersWeight(ws: seq<Worker>): nat { if ws == [] then 0 else WorkerWeight(ws[0]) + WorkersWeight(ws[1..]) }

  function ClientsWeight(cs: seq<Client>): nat { if cs == [] then 0 else ClientWeight(cs[0]) + ClientsWeight(cs[1..]) }

  function DestructorWeight(d: Destructor, n: nat): int {
    match d
    case NotCalled => 0
    case WantsStop => 3 * n + 3
    case HoldsStop => 3 * n + 2
    case BeforeNotifyAll => 3 * n + 1
    case Joining(k) => n - k
  }

  function Measure(s: State): int {
    WorkersWeight(s.workers) + ClientsWeight(s.clients) + DestructorWeight(s.destructor, |s.workers|) + 3 * |s.queue|
  }

  lemma {:induction false} WorkersWeightAt(ws: seq<Worker>, i: nat, w: Worker)
    requires i < |ws|
    ensures WorkersWeight(ws[i := w]) == WorkersWeight(ws) - WorkerWeight(ws[i]) + WorkerWeight(w)
  {
    if i > 0 {
      WorkersWeightAt(ws[1..], i - 1, w);
      assert ws[i := w][1..] == ws[1..][i - 1 := w];
    } else {
      assert ws[i := w][1..] == ws[1..];
    }
  }

  lemma {:induction false} ClientsWeightAt(cs: seq<Client>, i: nat, c: Client)
    requires i < |cs|
    ensures ClientsWeight(cs[i := c]) == ClientsWeight(cs) - ClientWeight(cs[i]) + ClientWeight(c)
  {
    if i > 0 {
      ClientsWeightAt(cs[1..], i - 1, c);
      assert cs[i := c][1..] == cs[1..][i - 1 := c];
    } else {
      assert cs[i := c][1..] == cs[1..];
    }
  }

  lemma {:induction false} WakeAllWeight(ws: seq<Worker>)
    ensures WorkersWeight(WakeAll(ws)) <= WorkersWeight(ws) + 2 * |ws|
  {
    if ws != [] {
      assert WakeAll(ws)[1..] == WakeAll(ws[1..]);
      WakeAllWeight(ws[1..]);
    }
  }

  lemma StepMeasure(s: State, step: Step)
    requires Inv(s) && Enabled(s, step) && Internal(step)
    ensures Measure(Apply(s, step)) < Measure(s)
  {
    var r := Apply(s, step);
    if step.Acquire? || step.Check? || step.Finish? {
      WorkersWeightAt(s.workers, step.w, r.workers[step.w]);
    } else if step.ClientAcquire? || step.Push? || step.NotifyOne? {
      ClientsWeightAt(s.clients, step.c, r.clients[step.c]);
      if step.NotifyOne? && Blocked in s.workers { WorkersWeightAt(s.workers, step.w, Contending); }
    } else if step.NotifyAll? {
      WakeAllWeight(s.workers);
    }
  }

  /** Without new calls and spurious wakeups every run is finite: it has at most Measure(s) steps. */
  lemma {:induction false} RunsEnd(s: State, steps: seq<Step>)
    requires Inv(s) && Possible(s, steps) && forall i :: 0 <= i < |steps| ==> Internal(steps[i])
    ensures |steps| <= Measure(s)
    decreases steps
  {
    if steps != [] {
      StepInv(s, steps[0]);
      StepMeasure(s, steps[0]);
      RunsEnd(Apply(s, steps[0]), steps[1..]);
    }
  }

  predicate Quiescent(s: State) {
    s.owner == Free && s.queue == [] &&
    (forall i :: 0 <= i < |s.workers| ==> s.workers[i] == Blocked || s.workers[i] == Exited) &&
    (forall c :: 0 <= c < |s.clients| ==> s.clients[c] == Outside) &&
    (s.destructor == NotCalled || DestructorReturned(s))
  }

  function WorkerIndex(ws: seq<Worker>, p: Worker -> bool): (i: nat)
    ensures (exists w <- ws :: p(w)) ==> i < |ws| && p(ws[i])
  {
    if ws == [] || p(ws[0]) then 0 else 1 + WorkerIndex(ws[1..], p)
  }

  function ClientIndex(cs: seq<Client>, c: Client): (i: nat)
    ensures c in cs ==> i < |cs| && cs[i] == c
  {
    if cs == [] || cs[0] == c then 0 else 1 + ClientIndex(cs[1..], c)
  }

  /** A step some thread can take in a state that is not yet quiescent. */
  function NextStep(s: State): Step {
    match s.owner
    case Worker(w) => Check(w)
    case Client(c) => Push(c)
    case Destroyer => SetStop
    case Free =>
      if Contending in s.workers then Acquire(WorkerIndex(s.workers, w => w == Contending))
      else if exists w <- s.workers :: w.Running? then Finish(WorkerIndex(s.workers, (w: Worker) => w.Running?))
      else if Wanting in s.clients then ClientAcquire(ClientIndex(s.clients, Wanting))
      else if Notifying in s.clients
        then NotifyOne(ClientIndex(s.clients, Notifying), WorkerIndex(s.workers, w => w == Blocked))
      else if s.destructor == WantsStop then DestroyAcquire
      else if s.destructor == BeforeNotifyAll then NotifyAll
      else Join
  }

  /** No deadlock and no lost wakeup: threads stop only when the queue is empty and nothing runs. */
  lemma NoDeadlock(s: State)
    requires Inv(s) && !Quiescent(s)
    ensures Enabled(s, NextStep(s)) && Internal(NextStep(s))
  {
  }

  ghost predicate AtRest(s: State) { forall step :: Enabled(s, step) ==> !Internal(step) }

  /** Once all threads are at rest, every submitted task has finished, whatever the schedule was. */
  lemma RestMeansDone(s: State, steps: seq<Step>)
    requires Init(s) && Possible(s, steps) && AtRest(After(s, steps))
    ensures Quiescent(After(s, steps))
    ensures forall t: nat :: t in After(s, steps).finished <==> t < Submissions(s, steps)
    ensures After(s, steps).stop ==> DestructorReturned(After(s, steps))
  {
    InitInv(s);
    RunInv(s, steps);
    EverySubmissionAccepted(s, steps);
    var r := After(s, steps);
    if !Quiescent(r) {
      NoDeadlock(r);
    } else {
      AllFinished(r);
    }
  }
}
