/**
 New-connection and close callbacks of a session racing each other for the connection
 manager and the rate limiter, which each of them visits in that order, in separate steps.

 Callbacks start at any time and in any number: a connection can be closed before its own
 new-connection callback is through, the close callback of an old connection can come late,
 and a refused connection is closed without having been added. A connection goes by the name
 of its new-connection callback. Gets of the limiter interleave, in two halves.
 */
module CallbackRaces {
  import opened Runs
  import opened Sessions
  import opened LimiterIndex

  type CallbackId = nat

  type Getter = nat

  /** Before, between and after the two visits. */
  datatype Stage = Started | Between | Done

  /** `managerAt` and `limiterAt` are the positions of the two visits in the run. */
  datatype Callback = Callback(session: Session, kind: Kind, stage: Stage, managerAt: nat, limiterAt: nat)

  datatype Kind = Opens | Closes(conn: CallbackId)

  /** A Get that found no limiter: before and after its New, at position `at`. */
  datatype Get = Get(session: Session, finished: bool, at: nat)

  /** Who visited the limiter. */
  datatype Visitor = Callbacks(id: CallbackId) | Gets(getter: Getter)

  /** The latest visit for a session: whose, at which position, and whether it puts the session on file. */
  datatype Visit<V> = Visit(who: V, at: nat, files: bool)

  datatype State = State(
    clock: nat,
    callbacks: map<CallbackId, Callback>,
    gets: map<Getter, Get>,
    manager: map<Session, CallbackId>,      // the connection on file
    filed: set<Session>,                    // sessions on the limiter's file
    lastManager: map<Session, Visit<CallbackId>>,
    lastLimiter: map<Session, Visit<Visitor>>)

  datatype Event =
    | Start(id: CallbackId, session: Session, kind: Kind)
    | VisitManager(id: CallbackId)
    | VisitLimiter(id: CallbackId)
    | Lookup(getter: Getter, session: Session)
    | FinishGet(getter: Getter)

  const INIT := State(0, map[], map[], map[], {}, map[], map[])

  predicate At(s: State, k: CallbackId, stage: Stage) {
    k in s.callbacks && s.callbacks[k].stage == stage
  }

  function Begin(s: State, k: CallbackId, x: Session, kind: Kind): State {
    if k in s.callbacks then s else s.(callbacks := s.callbacks[k := Callback(x, kind, Started, 0, 0)])
  }

  /** AddConnection, or RemoveConnection, which goes by the session and not by the connection. */
  function AtManager(s: State, k: CallbackId): State {
    if !At(s, k, Started) then s
    else
      var c := s.callbacks[k];
      s.(callbacks := s.callbacks[k := c.(stage := Between, managerAt := s.clock)],
         lastManager := s.lastManager[c.session := Visit(k, s.clock, c.kind.Opens?)],
         manager := if c.kind.Opens? then s.manager[c.session := k] else s.manager - {c.session})
  }

  function AtLimiter(s: State, k: CallbackId): State {
    if !At(s, k, Between) then s
    else
      var c := s.callbacks[k];
      s.(callbacks := s.callbacks[k := c.(stage := Done, limiterAt := s.clock)],
         lastLimiter := s.lastLimiter[c.session := Visit(Callbacks(k), s.clock, c.kind.Opens?)],
         filed := if c.kind.Opens? then s.filed + {c.session} else s.filed - {c.session})
  }

  /** The lookup finds a limiter: its owner has some session on file. */
  ghost predicate Found(s: State, x: Session) { exists y :: y in s.filed && SameOwner(x, y) }

  ghost function Miss(s: State, g: Getter, x: Session): State {
    if g in s.gets || Found(s, x) then s else s.(gets := s.gets[g := Get(x, false, 0)])
  }

  function AtNew(s: State, g: Getter): State {
    if g !in s.gets || s.gets[g].finished then s
    else
      var x := s.gets[g].session;
      s.(gets := s.gets[g := Get(x, true, s.clock)], lastLimiter := s.lastLimiter[x := Visit(Gets(g), s.clock, true)],
         filed := s.filed + {x})
  }

  ghost function Act(s: State, e: Event): State {
    match e
    case Start(k, x, kind) => Begin(s, k, x, kind)
    case VisitManager(k) => AtManager(s, k)
    case VisitLimiter(k) => AtLimiter(s, k)
    case Lookup(g, x) => Miss(s, g, x)
    case FinishGet(g) => AtNew(s, g)
  }

  /** Every event takes one position of the run. */
  ghost function Step(s: State, e: Event): State { Act(s, e).(clock := s.clock + 1) }

  ghost function After(es: seq<Event>): State { Exec(Step, INIT, es) }

  // ----- What every run keeps -----

  predicate Managed(s: State, k: CallbackId) { k in s.callbacks && s.callbacks[k].stage != Started }

  ghost predicate TimedCallback(c: Callback, now: nat) {
    && (c.stage != Started ==> c.managerAt < now)
    && (c.stage == Done ==> c.managerAt < c.limiterAt < now)
  }

  ghost predicate TimedBy(s: State, now: nat) {
    && (forall k | k in s.callbacks :: TimedCallback(s.callbacks[k], now))
    && (forall g | g in s.gets && s.gets[g].finished :: s.gets[g].at < now)
  }

  ghost predicate Timed(s: State) { TimedBy(s, s.clock) }

  ghost predicate ManagerKnown(s: State) {
    && (forall k | Managed(s, k) ::
          var c := s.callbacks[k];
          c.session in s.lastManager
          && (s.lastManager[c.session].who == k || c.managerAt < s.lastManager[c.session].at))
    && (forall x | x in s.lastManager ::
          var v := s.lastManager[x];
          Managed(s, v.who) && s.callbacks[v.who].session == x && s.callbacks[v.who].managerAt == v.at
          && v.files == s.callbacks[v.who].kind.Opens?)
  }

  ghost predicate EntryKnown(s: State) {
    && (forall x | x in s.manager :: x in s.lastManager && s.lastManager[x].files && s.manager[x] == s.lastManager[x].who)
    && (forall x | x in s.lastManager && s.lastManager[x].files :: x in s.manager)
    && (forall x :: x in s.filed <==> x in s.lastLimiter && s.lastLimiter[x].files)
  }

  ghost predicate CallbacksKnown(s: State) {
    && (forall k | At(s, k, Done) ::
          var c := s.callbacks[k];
          c.session in s.lastLimiter
          && (s.lastLimiter[c.session].who == Callbacks(k) || c.limiterAt < s.lastLimiter[c.session].at))
    && (forall x | x in s.lastLimiter && s.lastLimiter[x].who.Callbacks? ::
          var v := s.lastLimiter[x];
          At(s, v.who.id, Done) && s.callbacks[v.who.id].session == x && s.callbacks[v.who.id].limiterAt == v.at
          && v.files == s.callbacks[v.who.id].kind.Opens?)
  }

  ghost predicate GetsKnown(s: State) {
    && (forall g | g in s.gets && s.gets[g].finished ::
          s.gets[g].session in s.lastLimiter
          && (s.lastLimiter[s.gets[g].session].who == Gets(g) || s.gets[g].at < s.lastLimiter[s.gets[g].session].at))
    && (forall x | x in s.lastLimiter && s.lastLimiter[x].who.Gets? ::
          var v := s.lastLimiter[x];
          v.who.getter in s.gets && s.gets[v.who.getter] == Get(x, true, v.at) && v.files)
  }

  lemma TimedKept(s: State, e: Event)
    requires Timed(s)
    ensures TimedBy(Act(s, e), s.clock + 1)
  {
    var t := Act(s, e);
    forall k | k in t.callbacks ensures TimedCallback(t.callbacks[k], s.clock + 1) {
      assert k in s.callbacks ==> TimedCallback(s.callbacks[k], s.clock);
    }
  }

  lemma VisitKeepsManager(s: State, k: CallbackId)
    requires Timed(s) && ManagerKnown(s)
    ensures ManagerKnown(AtManager(s, k))
  {
  }

  lemma LimiterKeepsManager(s: State, k: CallbackId)
    requires ManagerKnown(s)
    ensures ManagerKnown(AtLimiter(s, k))
  {
  }

  lemma ManagerKept(s: State, e: Event)
    requires Timed(s) && ManagerKnown(s)
    ensures ManagerKnown(Act(s, e))
  {
    match e
    case VisitManager(k) => VisitKeepsManager(s, k);
    case VisitLimiter(k) => LimiterKeepsManager(s, k);
    case _ =>
  }

  lemma EntryKept(s: State, e: Event)
    requires EntryKnown(s)
    ensures EntryKnown(Act(s, e))
  {
  }

  lemma VisitKeepsCallbacks(s: State, k: CallbackId)
    requires Timed(s) && CallbacksKnown(s)
    ensures CallbacksKnown(AtLimiter(s, k))
  {
  }

  lemma ManagerKeepsCallbacks(s: State, k: CallbackId)
    requires CallbacksKnown(s)
    ensures CallbacksKnown(AtManager(s, k))
  {
  }

  lemma NewKeepsCallbacks(s: State, g: Getter)
    requires Timed(s) && CallbacksKnown(s)
    ensures CallbacksKnown(AtNew(s, g))
  {
  }

  lemma CallbacksKept(s: State, e: Event)
    requires Timed(s) && CallbacksKnown(s)
    ensures CallbacksKnown(Act(s, e))
  {
    match e
    case VisitManager(k) => ManagerKeepsCallbacks(s, k);
    case VisitLimiter(k) => VisitKeepsCallbacks(s, k);
    case FinishGet(g) => NewKeepsCallbacks(s, g);
    case _ =>
  }

  lemma NewKeepsGets(s: State, g: Getter)
    requires Timed(s) && GetsKnown(s)
    ensures GetsKnown(AtNew(s, g))
  {
  }

  lemma GetsKept(s: State, e: Event)
    requires Timed(s) && GetsKnown(s)
    ensures GetsKnown(Act(s, e))
  {
    if e.FinishGet? {
      NewKeepsGets(s, e.getter);
    }
  }

  ghost predicate Inv(s: State) {
    Timed(s) && ManagerKnown(s) && EntryKnown(s) && CallbacksKnown(s) && GetsKnown(s)
  }

  lemma InvAfter(es: seq<Event>)
    ensures Inv(After(es))
  {
    forall s, e | Inv(s) ensures Inv(Step(s, e)) {
      TimedKept(s, e);
      ManagerKept(s, e);
      EntryKept(s, e);
      CallbacksKept(s, e);
      GetsKept(s, e);
    }
    Invariant(Step, Inv, INIT, es);
  }

  // ----- The limiter's file against the manager -----

  /** No callback of the session is between its two visits. */
  ghost predicate Settled(s: State, x: Session) {
    forall k | At(s, k, Between) :: s.callbacks[k].session != x
  }

  /** The callback was the last of the session to visit the manager. */
  ghost predicate LastAtManager(s: State, x: Session, k: CallbackId) {
    && Managed(s, k) && s.callbacks[k].session == x
    && forall j | Managed(s, j) && s.callbacks[j].session == x :: s.callbacks[j].managerAt <= s.callbacks[k].managerAt
  }

  predicate Visited(s: State, v: Visitor, x: Session) {
    match v
    case Callbacks(k) => At(s, k, Done) && s.callbacks[k].session == x
    case Gets(g) => g in s.gets && s.gets[g].session == x && s.gets[g].finished
  }

  function VisitedAt(s: State, v: Visitor, x: Session): nat
    requires Visited(s, v, x)
  {
    match v
    case Callbacks(k) => s.callbacks[k].limiterAt
    case Gets(g) => s.gets[g].at
  }

  /** The last to visit the limiter for the session. */
  ghost predicate LastAtLimiter(s: State, x: Session, v: Visitor) {
    Visited(s, v, x) && forall w | Visited(s, w, x) :: VisitedAt(s, w, x) <= VisitedAt(s, v, x)
  }

  /** Callback `k` visits the manager between the two visits of `j`, and goes the other way. */
  predicate Overtakes(s: State, k: CallbackId, j: CallbackId)
    requires k in s.callbacks && j in s.callbacks
  {
    && s.callbacks[j].managerAt < s.callbacks[k].managerAt < s.callbacks[j].limiterAt
    && s.callbacks[j].kind.Opens? != s.callbacks[k].kind.Opens?
  }

  /**
   The visitor comes to the limiter against the last visit to the manager: a Get for a
   session that is not connected, or a callback that was overtaken at the manager.
   */
  ghost predicate Crosses(s: State, x: Session, v: Visitor) {
    match v
    case Gets(_) => forall k | LastAtManager(s, x, k) :: s.callbacks[k].kind.Closes?
    case Callbacks(j) => j in s.callbacks && exists k :: LastAtManager(s, x, k) && Overtakes(s, k, j)
  }

  lemma LastManagerIs(s: State, x: Session, k: CallbackId)
    requires Inv(s)
    ensures LastAtManager(s, x, k) <==> x in s.lastManager && s.lastManager[x].who == k
  {
    if x in s.lastManager {
      assert Managed(s, s.lastManager[x].who);
    }
  }

  lemma LastLimiterIs(s: State, x: Session, v: Visitor)
    requires Inv(s)
    ensures LastAtLimiter(s, x, v) <==> x in s.lastLimiter && s.lastLimiter[x].who == v
  {
    if x in s.lastLimiter {
      assert Visited(s, s.lastLimiter[x].who, x);
    }
    forall w | Visited(s, w, x) ensures x in s.lastLimiter && (s.lastLimiter[x].who == w || VisitedAt(s, w, x) < s.lastLimiter[x].at) {
    }
  }

  lemma CrossesExactly(s: State, x: Session)
    requires Inv(s) && Settled(s, x) && x in s.lastLimiter
    ensures (x in s.filed <==> x in s.manager) <==> !Crosses(s, x, s.lastLimiter[x].who)
  {
    forall k { LastManagerIs(s, x, k); }
    var v := s.lastLimiter[x].who;
    if v.Callbacks? {
      var k := s.lastManager[x].who;
      assert At(s, v.id, Done) && At(s, k, Done);
      assert LastAtManager(s, x, k);
    }
  }

  /**
   In every run, a session with no callback between its two visits is on the limiter's file
   exactly if it is in the manager, unless the last to visit the limiter was a Get while the
   session is not connected, or a callback overtaken at the manager by one going the other way.
   */
  lemma FileMatchesUnlessCrossed(es: seq<Event>, x: Session)
    requires Settled(After(es), x)
    ensures var s := After(es);
      (x in s.filed <==> x in s.manager) <==> !exists v :: LastAtLimiter(s, x, v) && Crosses(s, x, v)
  {
    InvAfter(es);
    var s := After(es);
    forall v { LastLimiterIs(s, x, v); }
    if x in s.lastLimiter {
      CrossesExactly(s, x);
      assert LastAtLimiter(s, x, s.lastLimiter[x].who);
    }
  }

  /** So it does match if one callback was the last at both. */
  lemma SameCallbackMatches(es: seq<Event>, x: Session, k: CallbackId)
    requires LastAtManager(After(es), x, k) && LastAtLimiter(After(es), x, Callbacks(k))
    ensures x in After(es).filed <==> x in After(es).manager
  {
    InvAfter(es);
    LastManagerIs(After(es), x, k);
    LastLimiterIs(After(es), x, Callbacks(k));
  }

  // ----- The manager's entry -----

  /** The connection has been added, and its own close callback has not started. */
  ghost predicate OpenConnection(s: State, o: CallbackId) {
    Managed(s, o) && s.callbacks[o].kind.Opens? && forall k | k in s.callbacks :: s.callbacks[k].kind != Closes(o)
  }

  /** A callback of the same session, not its own, visits the manager after it. */
  ghost predicate Displaced(s: State, o: CallbackId)
    requires o in s.callbacks
  {
    exists k :: Managed(s, k) && s.callbacks[k].session == s.callbacks[o].session
      && s.callbacks[o].managerAt < s.callbacks[k].managerAt && s.callbacks[k].kind != Closes(o)
  }

  /**
   In every run, an open connection is the manager's entry of its session exactly if no
   later connection and no close callback of another connection has visited since it was added.
   */
  lemma EntryIsTheConnectionExactly(es: seq<Event>, o: CallbackId)
    requires OpenConnection(After(es), o)
    ensures var s := After(es); var x := s.callbacks[o].session;
      x in s.manager && s.manager[x] == o <==> !Displaced(s, o)
  {
    InvAfter(es);
    var s := After(es);
    var x := s.callbacks[o].session;
    if s.lastManager[x].who != o {
      var k := s.lastManager[x].who;
      assert Managed(s, k) && s.callbacks[k].session == x && s.callbacks[o].managerAt < s.callbacks[k].managerAt;
    }
  }

  // ----- Runs that cross -----

  /** A new-connection callback and a close callback of one session, both about to begin. */
  ghost predicate BothStarted(s: State, x: Session, o: CallbackId, c: CallbackId) {
    && At(s, o, Started) && s.callbacks[o].session == x && s.callbacks[o].kind.Opens?
    && At(s, c, Started) && s.callbacks[c].session == x && s.callbacks[c].kind.Closes?
  }

  /** That happens for every session, with a connection closed before it was added ... */
  lemma ClosedAtOnce(x: Session)
    ensures BothStarted(After([Start(0, x, Opens)] + [Start(1, x, Closes(0))]), x, 0, 1)
  {
    Snoc(Step, INIT, [], Start(0, x, Opens));
    assert [] + [Start(0, x, Opens)] == [Start(0, x, Opens)];
    Snoc(Step, INIT, [Start(0, x, Opens)], Start(1, x, Closes(0)));
  }

  /** ... and with an old connection that closes while its successor is being added. */
  lemma ClosedLate(x: Session)
    ensures var s := After([Start(0, x, Opens), VisitManager(0), VisitLimiter(0)] + [Start(1, x, Closes(0))] + [Start(2, x, Opens)]);
      BothStarted(s, x, 2, 1) && x in s.manager && x in s.filed
  {
    var up := [Start(0, x, Opens), VisitManager(0), VisitLimiter(0)];
    var s := OneUp(x);
    Snoc(Step, INIT, up, Start(1, x, Closes(0)));
    Snoc(Step, INIT, up + [Start(1, x, Closes(0))], Start(2, x, Opens));
    var t := Step(s, Start(1, x, Closes(0)));
    assert t.callbacks == s.callbacks[1 := Callback(x, Closes(0), Started, 0, 0)];
  }

  lemma OneUp(x: Session) returns (s: State)
    ensures s == After([Start(0, x, Opens), VisitManager(0), VisitLimiter(0)])
    ensures s.callbacks == map[0 := Callback(x, Opens, Done, 1, 2)] && x in s.manager && x in s.filed
  {
    ExecThree(Step, INIT, Start(0, x, Opens), VisitManager(0), VisitLimiter(0));
    var s1 := Step(INIT, Start(0, x, Opens));
    assert s1.callbacks == map[0 := Callback(x, Opens, Started, 0, 0)] && s1.clock == 1;
    var s2 := Step(s1, VisitManager(0));
    assert s2.callbacks == map[0 := Callback(x, Opens, Between, 1, 0)] && s2.clock == 2;
    s := Step(s2, VisitLimiter(0));
  }

  /** Of two callbacks of a session, the later one at the manager decides there. */
  lemma TwoAtManager(s: State, x: Session, a: CallbackId, b: CallbackId) returns (t: State)
    requires a != b && At(s, a, Started) && At(s, b, Started)
    requires s.callbacks[a].session == s.callbacks[b].session == x
    ensures t == Step(Step(s, VisitManager(a)), VisitManager(b))
    ensures At(t, a, Between) && t.callbacks[a].session == x && t.callbacks[a].kind == s.callbacks[a].kind
    ensures At(t, b, Between) && t.callbacks[b].session == x && t.callbacks[b].kind == s.callbacks[b].kind
    ensures if s.callbacks[b].kind.Opens? then x in t.manager && t.manager[x] == b else x !in t.manager
  {
    var u := Step(s, VisitManager(a));
    assert u.callbacks[b] == s.callbacks[b] && At(u, a, Between) && u.callbacks[a].kind == s.callbacks[a].kind;
    t := Step(u, VisitManager(b));
  }

  /** And at the limiter. */
  lemma TwoAtLimiter(s: State, x: Session, a: CallbackId, b: CallbackId) returns (t: State)
    requires a != b && At(s, a, Between) && At(s, b, Between)
    requires s.callbacks[a].session == s.callbacks[b].session == x
    ensures t == Step(Step(s, VisitLimiter(a)), VisitLimiter(b))
    ensures t.manager == s.manager && (x in t.filed <==> s.callbacks[b].kind.Opens?)
  {
    var u := Step(s, VisitLimiter(a));
    assert u.callbacks[b] == s.callbacks[b] && u.manager == s.manager;
    t := Step(u, VisitLimiter(b));
  }

  /**
   After any such run: the connection is added and removed, and then the limiter is told of
   the removal before it is told of the connection. The session is out of the manager and on file.
   */
  lemma ClosedBetweenItsVisits(es: seq<Event>, x: Session, o: CallbackId, c: CallbackId)
    requires BothStarted(After(es), x, o, c)
    ensures var s := After(es + [VisitManager(o), VisitManager(c), VisitLimiter(c), VisitLimiter(o)]);
      x !in s.manager && x in s.filed
  {
    Concat(Step, INIT, es, [VisitManager(o), VisitManager(c), VisitLimiter(c), VisitLimiter(o)]);
    Exec4(Step, After(es), VisitManager(o), VisitManager(c), VisitLimiter(c), VisitLimiter(o));
    var s := TwoAtManager(After(es), x, o, c);
    var t := TwoAtLimiter(s, x, c, o);
  }

  /** And the other way round: a late close takes its successor off the limiter's file. */
  lemma LateCloseUnfiles(es: seq<Event>, x: Session, o: CallbackId, c: CallbackId)
    requires BothStarted(After(es), x, o, c)
    ensures var s := After(es + [VisitManager(c), VisitManager(o), VisitLimiter(o), VisitLimiter(c)]);
      x in s.manager && s.manager[x] == o && x !in s.filed
  {
    Concat(Step, INIT, es, [VisitManager(c), VisitManager(o), VisitLimiter(o), VisitLimiter(c)]);
    Exec4(Step, After(es), VisitManager(c), VisitManager(o), VisitLimiter(o), VisitLimiter(c));
    var s := TwoAtManager(After(es), x, c, o);
    var t := TwoAtLimiter(s, x, o, c);
  }

  /** Or out of the manager: the successor is open, and nobody finds it. */
  lemma LateCloseHidesSuccessor(es: seq<Event>, x: Session, o: CallbackId, c: CallbackId)
    requires BothStarted(After(es), x, o, c) && forall k | k in After(es).callbacks :: After(es).callbacks[k].kind != Closes(o)
    ensures var s := After(es + [VisitManager(o)] + [VisitManager(c)]);
      OpenConnection(s, o) && x !in s.manager
  {
    Snoc(Step, INIT, es, VisitManager(o));
    Snoc(Step, INIT, es + [VisitManager(o)], VisitManager(c));
  }

  // ----- A Get for a session that is gone -----

  /** On file, with no close callback of the session under way. */
  ghost predicate Kept(s: State, x: Session) {
    x in s.filed && forall k | k in s.callbacks && s.callbacks[k].session == x && s.callbacks[k].kind.Closes? :: s.callbacks[k].stage == Done
  }

  ghost predicate NeverClosed(fs: seq<Event>, x: Session) {
    forall i | 0 <= i < |fs| :: !(fs[i].Start? && fs[i].session == x && fs[i].kind.Closes?)
  }

  lemma KeptOn(s: State, e: Event, x: Session)
    requires Kept(s, x) && !(e.Start? && e.session == x && e.kind.Closes?)
    ensures Kept(Step(s, e), x)
  {
  }

  lemma {:induction false} StaysOnFile(s: State, fs: seq<Event>, x: Session)
    requires Kept(s, x) && NeverClosed(fs, x)
    ensures Kept(Exec(Step, s, fs), x)
  {
    if fs == [] {
    } else {
      var front := fs[..|fs| - 1];
      StaysOnFile(s, front, x);
      KeptOn(Exec(Step, s, front), fs[|fs| - 1], x);
    }
  }

  /**
   After any run, a Get for a session of whose owner nobody is on file, and of which no close
   callback is under way, leaves the session on file until it is closed again.
   */
  lemma StrayGetStays(es: seq<Event>, g: Getter, x: Session, fs: seq<Event>)
    requires !Found(After(es), x) && g !in After(es).gets && NeverClosed(fs, x)
    requires forall k | k in After(es).callbacks && After(es).callbacks[k].session == x
        && After(es).callbacks[k].kind.Closes? :: After(es).callbacks[k].stage == Done
    ensures x in After(es + [Lookup(g, x)] + [FinishGet(g)] + fs).filed
  {
    Snoc(Step, INIT, es, Lookup(g, x));
    Snoc(Step, INIT, es + [Lookup(g, x)], FinishGet(g));
    Concat(Step, INIT, es + [Lookup(g, x)] + [FinishGet(g)], fs);
    StaysOnFile(After(es + [Lookup(g, x)] + [FinishGet(g)]), fs, x);
  }
}
