/** At-least-once delivery of events with in-memory retries. */
module AsyncDispatcher {
  import opened Runs

  /** Emitted events are named by the callback ID drawn for them. */
  type EventId = nat

  datatype Job = Job(id: EventId, attempt: nat)

  datatype Retry = Retry(job: Job, delay: nat)

  datatype Post = Post(id: EventId, ok: bool)

  datatype Loop = Idle | Delivering(job: Job) | Exited

  /** What a fired retry timer does when several select cases are ready. */
  datatype Choice = Enqueue | Discard | DropFull

  datatype State = State(
    capacity: nat,
    retryMax: int,
    backoff: Schedule,
    queue: seq<Job>,
    loop: Loop,
    timers: seq<Retry>,
    closed: bool,
    posts: seq<Post>,
    emitted: set<EventId>,
    acknowledged: multiset<EventId>,
    droppedFull: multiset<EventId>,
    droppedAfterRetries: multiset<EventId>,
    discarded: multiset<EventId>)

  datatype Event =
    | Emit(id: EventId)
    | TakeJob
    | PostDone(ok: bool)
    | TimerFires(timer: nat, choice: Choice)
    | Shutdown
    | LoopExit

  const QUEUE_SIZE := 1024

  /** Retry delays; the constructor replaces an empty list by the default one. */
  type Schedule = b: seq<nat> | b != [] witness [1]

  /** Seconds: 1, 5, 30, 120, 600. */
  const DEFAULT_BACKOFF: Schedule := [1, 5, 30, 120, 600]

  function Init(retryMax: int, backoff: seq<nat>): State {
    State(QUEUE_SIZE, retryMax, if backoff == [] then DEFAULT_BACKOFF else backoff, [], Idle, [], false, [], {},
          multiset{}, multiset{}, multiset{}, multiset{})
  }

  /** The delay before retry number `attempt`; past its end the schedule repeats its last value. */
  function Delay(backoff: Schedule, attempt: nat): nat
    requires attempt >= 1
  {
    backoff[if attempt - 1 < |backoff| - 1 then attempt - 1 else |backoff| - 1]
  }

  function EmitJob(s: State, id: EventId): State {
    if id in s.emitted then s  // callback IDs are never drawn twice
    else if |s.queue| < s.capacity then s.(emitted := s.emitted + {id}, queue := s.queue + [Job(id, 0)])
    else s.(emitted := s.emitted + {id}, droppedFull := s.droppedFull + multiset{id})
  }

  function Take(s: State): State {
    if s.loop != Idle || s.queue == [] then s else s.(loop := Delivering(s.queue[0]), queue := s.queue[1..])
  }

  function Deliver(s: State, ok: bool): State {
    if !s.loop.Delivering? then s
    else
      var job := s.loop.job.(attempt := s.loop.job.attempt + 1);
      var t := s.(loop := Idle, posts := s.posts + [Post(job.id, ok)]);
      if ok then t.(acknowledged := s.acknowledged + multiset{job.id})
      else if job.attempt >= s.retryMax then t.(droppedAfterRetries := s.droppedAfterRetries + multiset{job.id})
      else t.(timers := s.timers + [Retry(job, Delay(s.backoff, job.attempt))])
  }

  function Without<T>(q: seq<T>, i: nat): seq<T>
    requires i < |q|
  {
    q[..i] + q[i + 1..]
  }

  function FireTimer(s: State, i: nat, choice: Choice): State {
    if i >= |s.timers| then s
    else
      var job := s.timers[i].job;
      var t := s.(timers := Without(s.timers, i));
      match choice
      case Enqueue => if |s.queue| < s.capacity then t.(queue := s.queue + [job]) else s
      case Discard => if s.closed then t.(discarded := s.discarded + multiset{job.id}) else s
      case DropFull =>
        if !s.closed && |s.queue| >= s.capacity then t.(droppedFull := s.droppedFull + multiset{job.id}) else s
  }

  function Step(s: State, e: Event): State {
    match e
    case Emit(id) => EmitJob(s, id)
    case TakeJob => Take(s)
    case PostDone(ok) => Deliver(s, ok)
    case TimerFires(i, choice) => FireTimer(s, i, choice)
    case Shutdown => s.(closed := true)
    case LoopExit => if s.loop == Idle && s.closed && s.queue == [] then s.(loop := Exited) else s
  }

  ghost function After(retryMax: int, backoff: seq<nat>, es: seq<Event>): State {
    Exec(Step, Init(retryMax, backoff), es)
  }

  // ----- Where an event is -----

  function InQueue(q: seq<Job>, id: EventId): nat {
    if q == [] then 0 else InQueue(q[..|q| - 1], id) + (if q[|q| - 1].id == id then 1 else 0)
  }

  function InTimers(q: seq<Retry>, id: EventId): nat {
    if q == [] then 0 else InTimers(q[..|q| - 1], id) + (if q[|q| - 1].job.id == id then 1 else 0)
  }

  function InDelivery(l: Loop, id: EventId): nat {
    if l.Delivering? && l.job.id == id then 1 else 0
  }

  /** How often an event is anywhere: queue, delivery, timer, acknowledged, dropped, discarded. */
  function Places(s: State, id: EventId): nat {
    InQueue(s.queue, id) + InDelivery(s.loop, id) + InTimers(s.timers, id) + s.acknowledged[id] + s.droppedFull[id]
    + s.droppedAfterRetries[id] + s.discarded[id]
  }

  lemma QueueSnoc(q: seq<Job>, j: Job, id: EventId)
    ensures InQueue(q + [j], id) == InQueue(q, id) + (if j.id == id then 1 else 0)
  {
    assert (q + [j])[..|q|] == q;
  }

  lemma {:induction false} QueueHead(q: seq<Job>, id: EventId)
    requires q != []
    ensures InQueue(q, id) == (if q[0].id == id then 1 else 0) + InQueue(q[1..], id)
  {
    if |q| > 1 {
      var front := q[..|q| - 1];
      QueueHead(front, id);
      assert q[1..][..|q[1..]| - 1] == front[1..];
    }
  }

  lemma TimersSnoc(q: seq<Retry>, r: Retry, id: EventId)
    ensures InTimers(q + [r], id) == InTimers(q, id) + (if r.job.id == id then 1 else 0)
  {
  }

  lemma {:induction false} TimersWithout(q: seq<Retry>, i: nat, id: EventId)
    requires i < |q|
    ensures InTimers(q, id) == InTimers(Without(q, i), id) + (if q[i].job.id == id then 1 else 0)
  {
    var last := |q| - 1;
    if i == last {
      assert Without(q, i) == q[..last];
    } else {
      TimersWithout(q[..last], i, id);
      TimersSnoc(Without(q[..last], i), q[last], id);
      assert Without(q, i) == Without(q[..last], i) + [q[last]];
    }
  }

  /** Every emitted event is in exactly one place. */
  ghost predicate Conserved(s: State) {
    forall id :: Places(s, id) == if id in s.emitted then 1 else 0
  }

  lemma ConservedKept(s: State, e: Event)
    requires Conserved(s)
    ensures Conserved(Step(s, e))
  {
    var s' := Step(s, e);
    forall id ensures Places(s', id) == if id in s'.emitted then 1 else 0 {
      PlacesAfter(s, e, id);
    }
  }

  lemma EmitPlaces(s: State, n: EventId, id: EventId)
    ensures Places(EmitJob(s, n), id) == Places(s, id) + (if n == id && id !in s.emitted then 1 else 0)
  {
    QueueSnoc(s.queue, Job(n, 0), id);
  }

  lemma TakePlaces(s: State, id: EventId)
    ensures Places(Take(s), id) == Places(s, id)
  {
    if s.queue != [] {
      QueueHead(s.queue, id);
    }
  }

  lemma DeliverPlaces(s: State, ok: bool, id: EventId)
    ensures Places(Deliver(s, ok), id) == Places(s, id)
  {
    if s.loop.Delivering? {
      var job := s.loop.job.(attempt := s.loop.job.attempt + 1);
      TimersSnoc(s.timers, Retry(job, Delay(s.backoff, job.attempt)), id);
    }
  }

  lemma FirePlaces(s: State, i: nat, choice: Choice, id: EventId)
    ensures Places(FireTimer(s, i, choice), id) == Places(s, id)
  {
    if i < |s.timers| {
      TimersWithout(s.timers, i, id);
      QueueSnoc(s.queue, s.timers[i].job, id);
    }
  }

  lemma PlacesAfter(s: State, e: Event, id: EventId)
    ensures Places(Step(s, e), id) == Places(s, id) + (if e == Emit(id) && id !in s.emitted then 1 else 0)
  {
    match e
    case Emit(n) => EmitPlaces(s, n, id);
    case TakeJob => TakePlaces(s, id);
    case PostDone(ok) => DeliverPlaces(s, ok, id);
    case TimerFires(i, choice) => FirePlaces(s, i, choice, id);
    case Shutdown =>
    case LoopExit =>
  }

  // ----- How often an event is attempted -----

  function Attempts(posts: seq<Post>, id: EventId): nat {
    if posts == [] then 0 else Attempts(posts[..|posts| - 1], id) + (if posts[|posts| - 1].id == id then 1 else 0)
  }

  lemma AttemptsSnoc(posts: seq<Post>, p: Post, id: EventId)
    ensures Attempts(posts + [p], id) == Attempts(posts, id) + (if p.id == id then 1 else 0)
  {
    assert (posts + [p])[..|posts|] == posts;
  }

  /** An event is always tried once, and at most retryMax times. */
  function Limit(retryMax: int): nat { if retryMax > 1 then retryMax else 1 }

  ghost predicate NeverAccepted(posts: seq<Post>, id: EventId) {
    forall i | 0 <= i < |posts| && posts[i].id == id :: !posts[i].ok
  }

  /** A job in hand knows its number of attempts, has one left, and has had no success. */
  ghost predicate Pending(s: State, job: Job) {
    && job.id in s.emitted
    && job.attempt == Attempts(s.posts, job.id) < Limit(s.retryMax)
    && NeverAccepted(s.posts, job.id)
  }

  ghost predicate JobsPending(s: State) {
    && (forall j | j in s.queue :: Pending(s, j))
    && (s.loop.Delivering? ==> Pending(s, s.loop.job))
    && (forall r | r in s.timers :: Pending(s, r.job) && r.job.attempt >= 1 && r.delay == Delay(s.backoff, r.job.attempt))
  }

  /** Nothing is posted again after it was accepted. */
  ghost predicate SuccessIsLast(posts: seq<Post>) {
    forall i, j | 0 <= i < j < |posts| && posts[i].id == posts[j].id :: !posts[i].ok
  }

  ghost predicate Within(s: State) {
    && (forall i | 0 <= i < |s.posts| :: s.posts[i].id in s.emitted)
    && (forall id :: Attempts(s.posts, id) <= Limit(s.retryMax))
  }

  ghost predicate Fates(s: State) {
    && (forall id | id in s.droppedAfterRetries :: Attempts(s.posts, id) == Limit(s.retryMax) && NeverAccepted(s.posts, id))
    && (forall id | id in s.acknowledged :: !NeverAccepted(s.posts, id))
  }

  ghost predicate PostsBounded(s: State) { SuccessIsLast(s.posts) && Within(s) && Fates(s) }

  ghost predicate Inv(s: State) { Conserved(s) && JobsPending(s) && PostsBounded(s) }

  lemma {:induction false} QueuedCounts(q: seq<Job>, j: Job)
    requires j in q
    ensures InQueue(q, j.id) >= 1
  {
    if q[|q| - 1] != j {
      assert j in q[..|q| - 1];
      QueuedCounts(q[..|q| - 1], j);
    }
  }

  lemma {:induction false} TimedCounts(q: seq<Retry>, r: Retry)
    requires r in q
    ensures InTimers(q, r.job.id) >= 1
  {
    if q[|q| - 1] != r {
      assert r in q[..|q| - 1];
      TimedCounts(q[..|q| - 1], r);
    }
  }

  lemma {:induction false} UnpostedHasNone(posts: seq<Post>, id: EventId)
    requires forall i | 0 <= i < |posts| :: posts[i].id != id
    ensures Attempts(posts, id) == 0
  {
    if posts == [] {
    } else {
      UnpostedHasNone(posts[..|posts| - 1], id);
    }
  }

  lemma EmitKeepsBounds(s: State, id: EventId)
    requires PostsBounded(s)
    ensures PostsBounded(EmitJob(s, id))
  {
  }

  lemma EmitKeepsPending(s: State, id: EventId)
    requires JobsPending(s) && Within(s)
    ensures JobsPending(EmitJob(s, id))
  {
    var s' := EmitJob(s, id);
    forall j: Job | Pending(s, j) ensures Pending(s', j) {}
    if id !in s.emitted {
      UnpostedHasNone(s.posts, id);
      assert Pending(s', Job(id, 0));
    }
  }

  lemma TakeKeeps(s: State)
    requires JobsPending(s) && PostsBounded(s)
    ensures JobsPending(Take(s)) && PostsBounded(Take(s))
  {
    if s.loop == Idle && s.queue != [] {
      var s' := Take(s);
      assert forall j: Job :: Pending(s', j) == Pending(s, j);
      assert s.queue[0] in s.queue && forall j | j in s.queue[1..] :: j in s.queue;
    }
  }

  lemma FireKeeps(s: State, i: nat, choice: Choice)
    requires JobsPending(s) && PostsBounded(s)
    ensures JobsPending(FireTimer(s, i, choice)) && PostsBounded(FireTimer(s, i, choice))
  {
    if i < |s.timers| {
      assert s.timers[i] in s.timers;
    }
  }

  /** While an event is being delivered, no other job carries its ID. */
  lemma DeliveredAlone(s: State)
    requires Conserved(s) && s.loop.Delivering?
    ensures var id := s.loop.job.id;
      && (forall j | j in s.queue :: j.id != id)
      && (forall r | r in s.timers :: r.job.id != id)
      && id !in s.acknowledged && id !in s.droppedAfterRetries
  {
    var id := s.loop.job.id;
    assert Places(s, id) <= 1;
    forall j | j in s.queue ensures j.id != id { QueuedCounts(s.queue, j); }
    forall r | r in s.timers ensures r.job.id != id { TimedCounts(s.timers, r); }
  }

  lemma DeliverKeepsPending(s: State, ok: bool)
    requires Inv(s) && s.loop.Delivering?
    ensures JobsPending(Deliver(s, ok))
  {
    DeliveredAlone(s);
    var id := s.loop.job.id;
    var s' := Deliver(s, ok);
    forall n { AttemptsSnoc(s.posts, Post(id, ok), n); }
    forall j: Job | Pending(s, j) && j.id != id ensures Pending(s', j) {}
    var job := s.loop.job.(attempt := s.loop.job.attempt + 1);
    if !ok && job.attempt < s.retryMax {
      assert Pending(s', job);
    }
  }

  lemma SuccessIsLastSnoc(posts: seq<Post>, p: Post)
    requires SuccessIsLast(posts) && NeverAccepted(posts, p.id)
    ensures SuccessIsLast(posts + [p])
  {
  }

  lemma WithinSnoc(s: State, p: Post)
    requires Within(s) && p.id in s.emitted && Attempts(s.posts, p.id) < Limit(s.retryMax)
    ensures Within(s.(posts := s.posts + [p]))
  {
  }

  /** A post of an event without a fate leaves the fates of the others as they were. */
  lemma FatesSnoc(s: State, p: Post)
    requires Fates(s) && p.id !in s.acknowledged && p.id !in s.droppedAfterRetries
    ensures Fates(s.(posts := s.posts + [p]))
  {
  }

  lemma NewFate(s: State, id: EventId)
    requires Fates(s)
    ensures !NeverAccepted(s.posts, id) ==> Fates(s.(acknowledged := s.acknowledged + multiset{id}))
    ensures Attempts(s.posts, id) == Limit(s.retryMax) && NeverAccepted(s.posts, id) ==>
      Fates(s.(droppedAfterRetries := s.droppedAfterRetries + multiset{id}))
  {
  }

  lemma DeliverKeepsBounds(s: State, ok: bool)
    requires Inv(s) && s.loop.Delivering?
    ensures PostsBounded(Deliver(s, ok))
  {
    DeliveredAlone(s);
    var id := s.loop.job.id;
    var p := Post(id, ok);
    var t := s.(posts := s.posts + [p]);
    SuccessIsLastSnoc(s.posts, p);
    WithinSnoc(s, p);
    FatesSnoc(s, p);
    AttemptsSnoc(s.posts, p, id);
    assert t.posts[|s.posts|] == p;
    NewFate(t, id);
  }

  lemma StopKeeps(s: State, e: Event)
    requires JobsPending(s) && PostsBounded(s) && (e.Shutdown? || e.LoopExit?)
    ensures JobsPending(Step(s, e)) && PostsBounded(Step(s, e))
  {
  }

  lemma RetryMaxFixed(s: State, e: Event)
    ensures Step(s, e).retryMax == s.retryMax
  {
  }

  lemma StepKeeps(s: State, e: Event)
    requires Inv(s)
    ensures JobsPending(Step(s, e)) && PostsBounded(Step(s, e))
  {
    match e
    case Emit(id) =>
      EmitKeepsPending(s, id);
      EmitKeepsBounds(s, id);
    case TakeJob => TakeKeeps(s);
    case PostDone(ok) =>
      if s.loop.Delivering? {
        DeliverKeepsPending(s, ok);
        DeliverKeepsBounds(s, ok);
      }
    case TimerFires(i, choice) => FireKeeps(s, i, choice);
    case _ => StopKeeps(s, e);
  }

  lemma InitInv(retryMax: int, backoff: seq<nat>)
    ensures Inv(Init(retryMax, backoff))
  {
  }

  lemma InvAfter(retryMax: int, backoff: seq<nat>, es: seq<Event>)
    ensures Inv(After(retryMax, backoff, es)) && After(retryMax, backoff, es).retryMax == retryMax
  {
    var inv := (s: State) => Inv(s) && s.retryMax == retryMax;
    forall s, e | inv(s) ensures inv(Step(s, e)) {
      ConservedKept(s, e);
      StepKeeps(s, e);
      RetryMaxFixed(s, e);
    }
    InitInv(retryMax, backoff);
    Invariant(Step, inv, Init(retryMax, backoff), es);
  }

  /**
   Conservation: in every run each emitted event is in exactly one of the queue, delivery,
   a retry timer, acknowledged, dropped on a full queue, dropped after its retries, or
   discarded at shutdown.
   */
  lemma EveryEventInOnePlace(retryMax: int, backoff: seq<nat>, es: seq<Event>, id: EventId)
    ensures var s := After(retryMax, backoff, es); Places(s, id) == if id in s.emitted then 1 else 0
  {
    InvAfter(retryMax, backoff, es);
  }

  /**
   An event is posted at most max(1, retryMax) times, never again after an accepted post,
   and given up on exactly after its last permitted attempt; it counts as acknowledged
   only if a post was accepted.
   */
  lemma AttemptsAreBounded(retryMax: int, backoff: seq<nat>, es: seq<Event>, id: EventId)
    ensures var s := After(retryMax, backoff, es);
      && Attempts(s.posts, id) <= Limit(retryMax)
      && (forall i, j | 0 <= i < j < |s.posts| && s.posts[i].id == s.posts[j].id :: !s.posts[i].ok)
      && (id in s.droppedAfterRetries ==> Attempts(s.posts, id) == Limit(retryMax) && NeverAccepted(s.posts, id))
      && (id in s.acknowledged ==> !NeverAccepted(s.posts, id))
  {
    InvAfter(retryMax, backoff, es);
  }

  lemma BackoffFixed(retryMax: int, backoff: seq<nat>, es: seq<Event>)
    ensures After(retryMax, backoff, es).backoff == if backoff == [] then [1, 5, 30, 120, 600] else backoff
  {
    var fixed := (s: State) => s.backoff == if backoff == [] then [1, 5, 30, 120, 600] else backoff;
    Invariant(Step, fixed, Init(retryMax, backoff), es);
  }

  /**
   Every armed retry waits what the schedule given, or by default 1, 5, 30, 120 and 600
   seconds, has for its attempt, or its last value beyond its end.
   */
  lemma RetriesFollowTheSchedule(retryMax: int, backoff: seq<nat>, es: seq<Event>, i: nat)
    requires i < |After(retryMax, backoff, es).timers|
    ensures var r := After(retryMax, backoff, es).timers[i];
      var schedule := if backoff == [] then [1, 5, 30, 120, 600] else backoff;
      && 1 <= r.job.attempt < Limit(retryMax)
      && r.delay == if r.job.attempt <= |schedule| then schedule[r.job.attempt - 1] else schedule[|schedule| - 1]
  {
    InvAfter(retryMax, backoff, es);
    BackoffFixed(retryMax, backoff, es);
    assert After(retryMax, backoff, es).timers[i] in After(retryMax, backoff, es).timers;
  }

  // ----- What becomes of an event -----

  lemma CapacityFixed(retryMax: int, backoff: seq<nat>, es: seq<Event>)
    ensures After(retryMax, backoff, es).capacity == 1024
    ensures |After(retryMax, backoff, es).queue| <= 1024
  {
    Invariant(Step, (s: State) => s.capacity == 1024 && |s.queue| <= 1024, Init(retryMax, backoff), es);
  }

  /** The dispatcher is shut down exactly after a Shutdown. */
  lemma ClosedExactlyAfter(retryMax: int, backoff: seq<nat>, es: seq<Event>)
    ensures After(retryMax, backoff, es).closed <==> Shutdown in es
  {
    var shuts := (s: State, e: Event) => e == Shutdown;
    ExactlyAfter(Step, Init(retryMax, backoff), es, shuts, (s: State) => s.closed);
    var init := Init(retryMax, backoff);
    assert forall i | 0 <= i < |es| :: Meets(Step, init, es, shuts, i) <==> es[i] == Shutdown;
    if Shutdown in es {
      var i :| 0 <= i < |es| && es[i] == Shutdown;
      assert Meets(Step, init, es, shuts, i);
    }
  }

  /** A new event joins the end of the queue exactly if fewer than 1024 wait there, shut down or not; else it is dropped. */
  lemma EmitQueuesExactly(retryMax: int, backoff: seq<nat>, es: seq<Event>, id: EventId)
    requires id !in After(retryMax, backoff, es).emitted
    ensures var s := After(retryMax, backoff, es);
      After(retryMax, backoff, es + [Emit(id)]) ==
        if |s.queue| < 1024 then s.(emitted := s.emitted + {id}, queue := s.queue + [Job(id, 0)])
        else s.(emitted := s.emitted + {id}, droppedFull := s.droppedFull + multiset{id})
  {
    CapacityFixed(retryMax, backoff, es);
    Snoc(Step, Init(retryMax, backoff), es, Emit(id));
  }

  predicate Appends(timers: seq<Retry>, job: Job, timers': seq<Retry>) {
    |timers'| == |timers| + 1 && timers'[..|timers|] == timers && timers'[|timers|].job == job
  }

  /** From `s` to `s'` the oldest job was posted and its event acknowledged, dropped, or put on a timer. */
  ghost predicate Settled(s: State, ok: bool, retryMax: int, s': State)
    requires s.queue != []
  {
    var job := s.queue[0];
    var rest := s.(queue := s.queue[1..], posts := s.posts + [Post(job.id, ok)]);
    if ok then s' == rest.(acknowledged := s.acknowledged + multiset{job.id})
    else if job.attempt + 1 >= retryMax then s' == rest.(droppedAfterRetries := s.droppedAfterRetries + multiset{job.id})
    else Appends(s.timers, Job(job.id, job.attempt + 1), s'.timers) && s' == rest.(timers := s'.timers)
  }

  lemma Settles(s: State, ok: bool)
    requires s.loop == Idle && s.queue != []
    ensures Settled(s, ok, s.retryMax, Deliver(Take(s), ok))
  {
  }

  /**
   The idle loop posts the oldest job. Accepted, its event is acknowledged; refused after
   fewer than retryMax attempts, it waits on a timer with one attempt more; else it is dropped.
   */
  lemma PostSettles(retryMax: int, backoff: seq<nat>, es: seq<Event>, ok: bool)
    requires var s := After(retryMax, backoff, es); s.loop == Idle && s.queue != []
    ensures Settled(After(retryMax, backoff, es), ok, retryMax, After(retryMax, backoff, es + [TakeJob] + [PostDone(ok)]))
  {
    InvAfter(retryMax, backoff, es);
    Snoc(Step, Init(retryMax, backoff), es, TakeJob);
    Snoc(Step, Init(retryMax, backoff), es + [TakeJob], PostDone(ok));
    Settles(After(retryMax, backoff, es), ok);
  }

  /**
   A retry timer that fires always gets somewhere: into the queue exactly if it has room,
   to the discarded exactly after a Shutdown, and to the dropped exactly if neither holds.
   */
  lemma TimerGetsSomewhere(retryMax: int, backoff: seq<nat>, es: seq<Event>, i: nat, choice: Choice)
    requires i < |After(retryMax, backoff, es).timers|
    ensures var s := After(retryMax, backoff, es);
      var job := s.timers[i].job;
      var s' := After(retryMax, backoff, es + [TimerFires(i, choice)]);
      var rest := s.(timers := s.timers[..i] + s.timers[i + 1..]);
      match choice
      case Enqueue => s' == if |s.queue| < 1024 then rest.(queue := s.queue + [job]) else s
      case Discard => s' == if Shutdown in es then rest.(discarded := s.discarded + multiset{job.id}) else s
      case DropFull =>
        s' == if Shutdown in es || |s.queue| < 1024 then s else rest.(droppedFull := s.droppedFull + multiset{job.id})
  {
    CapacityFixed(retryMax, backoff, es);
    ClosedExactlyAfter(retryMax, backoff, es);
    Snoc(Step, Init(retryMax, backoff), es, TimerFires(i, choice));
  }

  /** The loop ends exactly when it is idle, the dispatcher shut down, and the queue empty. */
  lemma LoopEndsExactly(retryMax: int, backoff: seq<nat>, es: seq<Event>)
    ensures After(retryMax, backoff, es + [LoopExit]).loop == Exited <==>
      var s := After(retryMax, backoff, es);
      s.loop == Exited || (s.loop == Idle && Shutdown in es && s.queue == [])
  {
    ClosedExactlyAfter(retryMax, backoff, es);
    Snoc(Step, Init(retryMax, backoff), es, LoopExit);
  }

  // ----- Shutdown drains the queue -----

  /** The loop takes and posts `n` jobs, all accepted. */
  function PostAll(n: nat): seq<Event> { if n == 0 then [] else PostAll(n - 1) + [TakeJob] + [PostDone(true)] }

  function Ids(q: seq<Job>): seq<EventId> { seq(|q|, i requires 0 <= i < |q| => q[i].id) }

  lemma IdsSnoc(q: seq<Job>, n: nat)
    requires n < |q|
    ensures Ids(q[..n + 1]) == Ids(q[..n]) + [q[n].id]
  {
  }

  lemma {:induction false} PostsAll(s: State, n: nat)
    requires s.loop == Idle && n <= |s.queue|
    ensures var t := Exec(Step, s, PostAll(n));
      && t.loop == Idle && t.closed == s.closed && t.timers == s.timers
      && t.queue == s.queue[n..]
      && t.acknowledged == s.acknowledged + multiset(Ids(s.queue[..n]))
  {
    if n == 0 {
    } else {
      PostsAll(s, n - 1);
      var front := PostAll(n - 1);
      var t := Exec(Step, s, front);
      Snoc(Step, s, front, TakeJob);
      Snoc(Step, s, front + [TakeJob], PostDone(true));
      Settles(t, true);
      IdsSnoc(s.queue, n - 1);
      assert t.queue[0] == s.queue[n - 1] && t.queue[1..] == s.queue[n..];
    }
  }

  lemma DrainsAndEnds(s: State)
    requires s.closed && s.loop == Idle
    ensures var s' := Exec(Step, s, PostAll(|s.queue|) + [LoopExit]);
      && s'.loop == Exited && s'.queue == [] && s'.timers == s.timers
      && s'.acknowledged == s.acknowledged + multiset(Ids(s.queue))
  {
    PostsAll(s, |s.queue|);
    Snoc(Step, s, PostAll(|s.queue|), LoopExit);
    assert s.queue[..|s.queue|] == s.queue;
  }

  /** After a Shutdown the idle loop still gets everything queued acknowledged, and only then ends. */
  lemma ShutdownDrainsTheQueue(retryMax: int, backoff: seq<nat>, es: seq<Event>)
    requires Shutdown in es && After(retryMax, backoff, es).loop == Idle
    ensures var s := After(retryMax, backoff, es);
      var s' := After(retryMax, backoff, es + (PostAll(|s.queue|) + [LoopExit]));
      && s'.loop == Exited && s'.queue == [] && s'.timers == s.timers
      && s'.acknowledged == s.acknowledged + multiset(Ids(s.queue))
  {
    var s := After(retryMax, backoff, es);
    ClosedExactlyAfter(retryMax, backoff, es);
    DrainsAndEnds(s);
    Concat(Step, Init(retryMax, backoff), es, PostAll(|s.queue|) + [LoopExit]);
  }
}
