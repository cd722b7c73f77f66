/** A pool of workers behind a bounded queue, with submissions racing Close. */
module WorkerPool {
  import opened Common
  import opened Runs

  type Task = nat

  type Submitter = nat

  datatype Worker = Idle | Running(task: Task) | Exited

  /** A Submit holding the read lock: before and after it looked at the closed flag. */
  datatype Submission = Submission(task: Task, cleared: bool)

  datatype ClosePhase = NotCalled | Signalled | Waiting | Returned

  datatype State = State(
    capacity: nat,
    workers: seq<Worker>,
    queue: seq<Task>,
    queueClosed: bool,
    closed: bool,
    submitting: map<Submitter, Submission>,  // who holds closeMu shared
    closing: ClosePhase,
    dropped: nat,
    accepted: seq<Task>,       // submissions that returned true, in order
    refused: nat,              // submissions that returned false
    started: seq<Task>,        // tasks taken by a worker, in order
    finished: multiset<Task>)  // tasks that ran to the end or panicked and were recovered

  datatype Event =
    | SubmitLock(who: Submitter, task: Task)
    | SubmitCheck(who: Submitter)
    | SubmitSend(who: Submitter)
    | WorkerTake(worker: nat)
    | WorkerDone(worker: nat)
    | WorkerExit(worker: nat)
    | CloseSignal
    | CloseLocked
    | CloseReturn

  function Init(capacity: nat, workers: nat): State {
    State(capacity, seq(workers, _ => Idle), [], false, false, map[], NotCalled, 0, [], 0, [], multiset{})
  }

  function Refuse(s: State, p: Submitter): State {
    s.(submitting := s.submitting - {p}, dropped := s.dropped + 1, refused := s.refused + 1)
  }

  predicate WorkerIs(s: State, w: nat, p: Worker) { w < |s.workers| && s.workers[w] == p }

  function Check(s: State, p: Submitter): State {
    if p !in s.submitting || s.submitting[p].cleared then s
    else if s.closed then Refuse(s, p)
    else s.(submitting := s.submitting[p := s.submitting[p].(cleared := true)])
  }

  /** The non-blocking send: room in the queue, or the task is dropped. */
  function Send(s: State, p: Submitter): State {
    if p !in s.submitting || !s.submitting[p].cleared then s
    else if |s.queue| < s.capacity then
      var t := s.submitting[p].task;
      s.(submitting := s.submitting - {p}, queue := s.queue + [t], accepted := s.accepted + [t])
    else Refuse(s, p)
  }

  function Take(s: State, w: nat): State {
    if !WorkerIs(s, w, Idle) || s.queue == [] then s
    else
      s.(workers := s.workers[w := Running(s.queue[0])], queue := s.queue[1..], started := s.started + [s.queue[0]])
  }

  function Finish(s: State, w: nat): State {
    if w >= |s.workers| || !s.workers[w].Running? then s
    else s.(workers := s.workers[w := Idle], finished := s.finished + multiset{s.workers[w].task})
  }

  function Exit(s: State, w: nat): State {
    if WorkerIs(s, w, Idle) && s.queueClosed && s.queue == [] then s.(workers := s.workers[w := Exited]) else s
  }

  function Step(s: State, e: Event): State {
    match e
    case SubmitLock(p, t) =>
      if p in s.submitting then s else s.(submitting := s.submitting[p := Submission(t, false)])
    case SubmitCheck(p) => Check(s, p)
    case SubmitSend(p) => Send(s, p)
    case WorkerTake(w) => Take(s, w)
    case WorkerDone(w) => Finish(s, w)
    case WorkerExit(w) => Exit(s, w)
    case CloseSignal =>
      if s.closing == NotCalled then s.(closing := Signalled) else s
    case CloseLocked =>
      // the exclusive lock waits for every Submit inside
      if s.closing == Signalled && s.submitting == map[] then s.(closing := Waiting, closed := true, queueClosed := true) else s
    case CloseReturn =>
      if s.closing == Waiting && forall w | 0 <= w < |s.workers| :: s.workers[w] == Exited then s.(closing := Returned) else s
  }

  ghost function After(capacity: nat, workers: nat, es: seq<Event>): State { Exec(Step, Init(capacity, workers), es) }

  function TaskOf(w: Worker): multiset<Task> { if w.Running? then multiset{w.task} else multiset{} }

  /** The tasks the workers are running. */
  function Busy(workers: seq<Worker>): multiset<Task> {
    if workers == [] then multiset{} else Busy(workers[..|workers| - 1]) + TaskOf(workers[|workers| - 1])
  }

  lemma Swap(a: multiset<Task>, b: multiset<Task>, c: multiset<Task>)
    ensures a + b + c == a + c + b
  {
  }

  lemma {:induction false} BusyUpdate(workers: seq<Worker>, w: nat, p: Worker)
    requires w < |workers|
    ensures Busy(workers[w := p]) + TaskOf(workers[w]) == Busy(workers) + TaskOf(p)
  {
    var last := |workers| - 1;
    var front, ws := workers[..last], workers[w := p];
    if w == last {
      assert ws[..last] == front;
      Swap(Busy(front), TaskOf(p), TaskOf(workers[w]));
    } else {
      BusyUpdate(front, w, p);
      assert ws[..last] == front[w := p];
      calc {
        Busy(ws) + TaskOf(workers[w]);
        Busy(front[w := p]) + TaskOf(workers[last]) + TaskOf(workers[w]);
        { Swap(Busy(front[w := p]), TaskOf(workers[last]), TaskOf(workers[w])); }
        Busy(front[w := p]) + TaskOf(workers[w]) + TaskOf(workers[last]);
        Busy(front) + TaskOf(p) + TaskOf(workers[last]);
        { Swap(Busy(front), TaskOf(p), TaskOf(workers[last])); }
        Busy(workers) + TaskOf(p);
      }
    }
  }

  /** The same as a change of the set of running tasks. */
  lemma BusyAfter(workers: seq<Worker>, w: nat, p: Worker)
    requires w < |workers|
    ensures TaskOf(workers[w]) == multiset{} ==> Busy(workers[w := p]) == Busy(workers) + TaskOf(p)
    ensures TaskOf(p) == multiset{} ==> Busy(workers) == Busy(workers[w := p]) + TaskOf(workers[w])
  {
    BusyUpdate(workers, w, p);
    assert Busy(workers[w := p]) + multiset{} == Busy(workers[w := p]);
    assert Busy(workers) + multiset{} == Busy(workers);
  }

  lemma {:induction false} IdleBusy(workers: seq<Worker>)
    requires forall w | 0 <= w < |workers| :: !workers[w].Running?
    ensures Busy(workers) == multiset{}
  {
    if workers == [] {
    } else {
      IdleBusy(workers[..|workers| - 1]);
    }
  }

  /** Accepted tasks are started in the order of their submission. */
  ghost predicate InOrder(s: State) {
    && s.accepted == s.started + s.queue
    && |s.queue| <= s.capacity
    && s.dropped == s.refused
  }

  /** Started tasks are running or finished. */
  ghost predicate Ran(s: State) {
    multiset(s.started) == s.finished + Busy(s.workers)
  }

  ghost predicate Accounted(s: State) { InOrder(s) && Ran(s) }

  ghost predicate Closes(s: State) {
    && (s.queueClosed <==> s.closing == Waiting || s.closing == Returned)
    && s.closed == s.queueClosed
    && (s.queueClosed ==> forall p | p in s.submitting :: !s.submitting[p].cleared)
    && (forall w | 0 <= w < |s.workers| && s.workers[w] == Exited :: s.queueClosed && s.queue == [])
    && (s.closing == Returned ==> forall w | 0 <= w < |s.workers| :: s.workers[w] == Exited)
  }

  lemma TakeRan(s: State, w: nat)
    requires Ran(s)
    ensures Ran(Take(s, w))
  {
    if WorkerIs(s, w, Idle) && s.queue != [] {
      var t := s.queue[0];
      BusyAfter(s.workers, w, Running(t));
      assert multiset(s.started + [t]) == multiset(s.started) + multiset{t};
    }
  }

  lemma FinishRan(s: State, w: nat)
    requires Ran(s)
    ensures Ran(Finish(s, w))
  {
    if w < |s.workers| && s.workers[w].Running? {
      BusyAfter(s.workers, w, Idle);
      Swap(s.finished, Busy(s.workers[w := Idle]), TaskOf(s.workers[w]));
    }
  }

  lemma ExitRan(s: State, w: nat)
    requires Ran(s)
    ensures Ran(Exit(s, w))
  {
    if WorkerIs(s, w, Idle) {
      BusyAfter(s.workers, w, Exited);
    }
  }

  /** The other steps leave the workers and their tasks alone. */
  lemma OthersRun(s: State, e: Event)
    requires !e.WorkerTake? && !e.WorkerDone? && !e.WorkerExit?
    ensures var s' := Step(s, e);
      s'.workers == s.workers && s'.started == s.started && s'.finished == s.finished
  {
  }

  lemma RanKept(s: State, e: Event)
    requires Ran(s)
    ensures Ran(Step(s, e))
  {
    match e
    case WorkerTake(w) => TakeRan(s, w);
    case WorkerDone(w) => FinishRan(s, w);
    case WorkerExit(w) => ExitRan(s, w);
    case _ => OthersRun(s, e);
  }

  lemma InOrderKept(s: State, e: Event)
    requires InOrder(s)
    ensures InOrder(Step(s, e))
  {
  }

  lemma ClosesKept(s: State, e: Event)
    requires Closes(s)
    ensures Closes(Step(s, e))
  {
  }

  lemma {:induction false} BusyOfIdle(n: nat)
    ensures Busy(seq(n, _ => Idle)) == multiset{}
  {
    IdleBusy(seq(n, _ => Idle));
  }

  ghost predicate Inv(s: State, workers: nat) { Accounted(s) && Closes(s) && |s.workers| == workers }

  lemma AccountedAfter(capacity: nat, workers: nat, es: seq<Event>)
    ensures Accounted(After(capacity, workers, es))
  {
    forall s, e | InOrder(s) ensures InOrder(Step(s, e)) { InOrderKept(s, e); }
    Invariant(Step, InOrder, Init(capacity, workers), es);
    forall s, e | Ran(s) ensures Ran(Step(s, e)) { RanKept(s, e); }
    BusyOfIdle(workers);
    Invariant(Step, Ran, Init(capacity, workers), es);
  }

  lemma ClosesAfter(capacity: nat, workers: nat, es: seq<Event>)
    ensures Closes(After(capacity, workers, es))
  {
    forall s, e | Closes(s) ensures Closes(Step(s, e)) { ClosesKept(s, e); }
    Invariant(Step, Closes, Init(capacity, workers), es);
  }

  lemma InvAfter(capacity: nat, workers: nat, es: seq<Event>)
    ensures Inv(After(capacity, workers, es), workers)
  {
    AccountedAfter(capacity, workers, es);
    ClosesAfter(capacity, workers, es);
    var sized := (s: State) => |s.workers| == workers;
    Invariant(Step, sized, Init(capacity, workers), es);
  }

  /**
   In every run, accepted tasks are exactly those started, in submission order, followed
   by those queued; those started are finished or running; and drops are the refusals.
   */
  lemma TasksAreAccountedFor(capacity: nat, workers: nat, es: seq<Event>)
    ensures var s := After(capacity, workers, es);
      && s.accepted == s.started + s.queue
      && multiset(s.accepted) == s.finished + Busy(s.workers) + multiset(s.queue)
      && s.dropped == s.refused
  {
    InvAfter(capacity, workers, es);
    var s := After(capacity, workers, es);
    assert multiset(s.started + s.queue) == multiset(s.started) + multiset(s.queue);
  }

  /** The event: a Submit past its check sends on the closed queue, which panics. */
  predicate SendsOnClosed(s: State, e: Event) {
    e.SubmitSend? && e.who in s.submitting && s.submitting[e.who].cleared && s.queueClosed
  }

  /** Nothing is ever sent on the closed queue, however Submit and Close interleave. */
  lemma NeverSendsOnClosed(capacity: nat, workers: nat, es: seq<Event>)
    ensures !Ever(Step, Init(capacity, workers), es, SendsOnClosed)
  {
    forall s, e | Closes(s) ensures Closes(Step(s, e)) { ClosesKept(s, e); }
    Never(Step, Closes, Init(capacity, workers), es, SendsOnClosed);
  }

  lemma CapacityFixed(capacity: nat, workers: nat, es: seq<Event>)
    ensures After(capacity, workers, es).capacity == capacity
  {
    Invariant(Step, (s: State) => s.capacity == capacity, Init(capacity, workers), es);
  }

  lemma Submits(s: State, p: Submitter, t: Task)
    requires p !in s.submitting && (s.closed ==> s.queueClosed)
    ensures var s' := Step(Step(Step(s, SubmitLock(p, t)), SubmitCheck(p)), SubmitSend(p));
      s' == if s.closed || |s.queue| >= s.capacity then s.(dropped := s.dropped + 1, refused := s.refused + 1)
            else s.(queue := s.queue + [t], accepted := s.accepted + [t])
  {
    var s1 := Step(s, SubmitLock(p, t));
    assert s1.submitting - {p} == s.submitting;
    var s2 := Step(s1, SubmitCheck(p));
    assert s2.submitting - {p} == s.submitting;
  }

  /**
   Where nobody gets in between, a Submit after any run is accepted, at the end of the
   queue, exactly if the pool is not closed and has room; refused, it is counted as dropped.
   */
  lemma SubmitAcceptsExactly(capacity: nat, workers: nat, es: seq<Event>, p: Submitter, t: Task)
    requires p !in After(capacity, workers, es).submitting
    ensures var s := After(capacity, workers, es);
      After(capacity, workers, es + [SubmitLock(p, t), SubmitCheck(p), SubmitSend(p)]) ==
        if s.closed || |s.queue| >= capacity then s.(dropped := s.dropped + 1, refused := s.refused + 1)
        else s.(queue := s.queue + [t], accepted := s.accepted + [t])
  {
    var s := After(capacity, workers, es);
    CapacityFixed(capacity, workers, es);
    ClosesAfter(capacity, workers, es);
    Concat(Step, Init(capacity, workers), es, [SubmitLock(p, t), SubmitCheck(p), SubmitSend(p)]);
    ExecThree(Step, s, SubmitLock(p, t), SubmitCheck(p), SubmitSend(p));
    Submits(s, p, t);
  }

  /** An idle worker runs the oldest task of the queue and is idle again. */
  lemma WorkerRunsTheOldest(capacity: nat, workers: nat, es: seq<Event>, w: nat)
    requires WorkerIs(After(capacity, workers, es), w, Idle) && After(capacity, workers, es).queue != []
    ensures var s := After(capacity, workers, es);
      var t := s.queue[0];
      && WorkerIs(After(capacity, workers, es + [WorkerTake(w)]), w, Running(t))
      && After(capacity, workers, es + [WorkerTake(w)] + [WorkerDone(w)]) ==
           s.(queue := s.queue[1..], started := s.started + [t], finished := s.finished + multiset{t})
  {
    var s := After(capacity, workers, es);
    Snoc(Step, Init(capacity, workers), es, WorkerTake(w));
    Snoc(Step, Init(capacity, workers), es + [WorkerTake(w)], WorkerDone(w));
    assert s.workers[w := Running(s.queue[0])][w := Idle] == s.workers;
  }

  /** A worker leaves for good exactly when it is idle on the closed and empty queue. */
  lemma WorkerLeavesExactly(capacity: nat, workers: nat, es: seq<Event>, w: nat)
    ensures WorkerIs(After(capacity, workers, es + [WorkerExit(w)]), w, Exited) <==>
      var s := After(capacity, workers, es);
      WorkerIs(s, w, Exited) || (WorkerIs(s, w, Idle) && s.queueClosed && s.queue == [])
  {
    Snoc(Step, Init(capacity, workers), es, WorkerExit(w));
  }

  predicate AllExited(s: State) { forall w | 0 <= w < |s.workers| :: s.workers[w] == Exited }

  /**
   Close, called for the first time, takes the exclusive lock exactly when no Submit is
   inside, closes flag and queue together, and returns exactly when every worker has left.
   */
  lemma CloseProceeds(capacity: nat, workers: nat, es: seq<Event>)
    ensures var s := After(capacity, workers, es);
      && (After(capacity, workers, es + [CloseSignal]) == if s.closing == NotCalled then s.(closing := Signalled) else s)
      && (After(capacity, workers, es + [CloseLocked]) ==
            if s.closing == Signalled && s.submitting == map[] then s.(closing := Waiting, closed := true, queueClosed := true)
            else s)
      && (s.closing == Waiting ==>
            (After(capacity, workers, es + [CloseReturn]).closing == Returned <==> AllExited(s)))
  {
    Snoc(Step, Init(capacity, workers), es, CloseSignal);
    Snoc(Step, Init(capacity, workers), es, CloseLocked);
    Snoc(Step, Init(capacity, workers), es, CloseReturn);
  }

  // ----- Close does not hang -----

  function Weight(w: Worker): nat {
    match w
    case Running(_) => 2
    case Idle => 1
    case Exited => 0
  }

  function Weights(workers: seq<Worker>): nat {
    if workers == [] then 0 else Weights(workers[..|workers| - 1]) + Weight(workers[|workers| - 1])
  }

  lemma {:induction false} WeightsUpdate(workers: seq<Worker>, w: nat, p: Worker)
    requires w < |workers|
    ensures Weights(workers[w := p]) + Weight(workers[w]) == Weights(workers) + Weight(p)
  {
    var last := |workers| - 1;
    if w == last {
      assert workers[w := p][..last] == workers[..last];
    } else {
      WeightsUpdate(workers[..last], w, p);
      assert workers[w := p][..last] == workers[..last][w := p];
    }
  }

  /** The work left to the pool. */
  function Left(s: State): nat { 3 * |s.queue| + Weights(s.workers) }

  /** What a worker that has not left can do while Close waits, and that it makes progress. */
  lemma WorkerProgress(s: State, w: nat) returns (e: Event)
    requires Closes(s) && s.closing == Waiting && w < |s.workers| && s.workers[w] != Exited
    ensures e in {WorkerTake(w), WorkerDone(w), WorkerExit(w)}
    ensures Left(Step(s, e)) < Left(s) && Step(s, e).closing == Waiting && Step(s, e).accepted == s.accepted
  {
    e := if s.workers[w].Running? then WorkerDone(w) else if s.queue != [] then WorkerTake(w) else WorkerExit(w);
    WeightsUpdate(s.workers, w, Step(s, e).workers[w]);
  }

  predicate WorkerStep(e: Event) { e.WorkerTake? || e.WorkerDone? || e.WorkerExit? }

  /** While Close waits, steps of the workers alone let all of them leave. */
  lemma {:induction false} WorkersLeave(capacity: nat, workers: nat, es: seq<Event>) returns (fs: seq<Event>)
    requires After(capacity, workers, es).closing == Waiting
    ensures forall e | e in fs :: WorkerStep(e)
    ensures var s := After(capacity, workers, es + fs);
      s.closing == Waiting && AllExited(s) && s.accepted == After(capacity, workers, es).accepted
    decreases Left(After(capacity, workers, es))
  {
    var s := After(capacity, workers, es);
    if AllExited(s) {
      fs := [];
      assert es + fs == es;
    } else {
      var w :| 0 <= w < |s.workers| && s.workers[w] != Exited;
      ClosesAfter(capacity, workers, es);
      var e := WorkerProgress(s, w);
      Snoc(Step, Init(capacity, workers), es, e);
      var rest := WorkersLeave(capacity, workers, es + [e]);
      fs := [e] + rest;
      Assoc(es, [e], rest);
    }
  }

  /** However a run got Close to wait, steps of the workers alone let it return, with the same tasks accepted. */
  lemma CloseCanReturn(capacity: nat, workers: nat, es: seq<Event>) returns (fs: seq<Event>)
    requires After(capacity, workers, es).closing == Waiting
    ensures forall e | e in fs :: WorkerStep(e)
    ensures var s := After(capacity, workers, es + fs + [CloseReturn]);
      s.closing == Returned && s.accepted == After(capacity, workers, es).accepted
  {
    fs := WorkersLeave(capacity, workers, es);
    Snoc(Step, Init(capacity, workers), es + fs, CloseReturn);
  }

  /** When Close returns, every accepted task has run: exactly if there was a worker, or no task. */
  lemma CloseWaitsForEveryTask(capacity: nat, workers: nat, es: seq<Event>)
    requires After(capacity, workers, es).closing == Returned
    ensures var s := After(capacity, workers, es);
      s.finished == multiset(s.accepted) <==> workers > 0 || s.accepted == []
  {
    InvAfter(capacity, workers, es);
    var s := After(capacity, workers, es);
    IdleBusy(s.workers);
    if workers > 0 {
      assert s.workers[0] == Exited;
      assert s.accepted == s.started;
    } else {
      NoWorkersNoWork(s.workers);
      NothingFinishes(capacity, es);
      assert s.accepted != [] ==> s.accepted[0] in multiset(s.accepted);
    }
  }

  lemma NoWorkersNoWork(workers: seq<Worker>)
    requires |workers| == 0
    ensures Busy(workers) == multiset{}
  {
  }

  lemma NothingFinishes(capacity: nat, es: seq<Event>)
    ensures After(capacity, 0, es).finished == multiset{}
  {
    var inv := (s: State) => s.workers == [] && s.finished == multiset{};
    Invariant(Step, inv, Init(capacity, 0), es);
  }

  /** The provider never starts a pool without workers. */
  function ResolveWorkers(configured: int, gomaxprocs: int): (n: int)
    ensures n >= 1
    ensures configured <= 0 ==> n >= 8 && n >= gomaxprocs
  {
    if configured > 0 then configured else if gomaxprocs > 8 then gomaxprocs else 8
  }

  class Pool {
    const capacity: nat
    var queue: seq<Task>
    var closed: bool
    var dropped: nat
    var executed: seq<Task>

    constructor (capacity: nat)
      ensures this.capacity == capacity && queue == [] && !closed && dropped == 0 && executed == []
    {
      this.capacity := capacity;
      queue, closed, dropped, executed := [], false, 0, [];
    }

    method Submit(task: Task) returns (ok: bool)
      modifies this`queue, this`dropped
      ensures ok <==> !closed && |old(queue)| < capacity
      ensures queue == (if ok then old(queue) + [task] else old(queue))
      ensures dropped == (if ok then old(dropped) else old(dropped) + 1)
    {
      if closed {
        dropped := dropped + 1;
        return false;
      }
      if |queue| < capacity {
        queue := queue + [task];
        return true;
      }
      dropped := dropped + 1;
      return false;
    }

    /** A worker's loop over the closed queue: it runs what is left, in order, and ends. */
    method WorkOff()
      requires closed
      modifies this`queue, this`executed
      ensures queue == [] && executed == old(executed) + old(queue)
    {
      while queue != []
        invariant executed + queue == old(executed) + old(queue)
        decreases |queue|
      {
        var task := queue[0];
        queue := queue[1..];
        executed := executed + [task];
      }
    }
  }
}
