/**
 The hub's registry of temporarily disconnected sessions: user, then instance, then the
 generation of the registration. A registration's context is named by its generation.
 */
module HubRegistry {
  import opened Common
  import opened Sessions
  import TwoLevel

  type Generation = nat

  type Registry = TwoLevel.Nested<string, Generation>

  function Lookup(reg: Registry, s: Session): Option<Generation> {
    TwoLevel.Find(reg, s.user, s.instance)
  }

  function Put(reg: Registry, s: Session, gen: Generation): Registry {
    TwoLevel.Put(reg, s.user, s.instance, gen)
  }

  function Drop(reg: Registry, s: Session): Registry {
    TwoLevel.Drop(reg, s.user, s.instance)
  }

  /** What a fired timer of generation `gen` does to the registry. */
  function Expire(reg: Registry, s: Session, gen: Generation): Registry {
    if Lookup(reg, s) == Some(gen) then Drop(reg, s) else reg
  }

  ghost function Registered(reg: Registry): set<Generation> {
    set u, i | u in reg && i in reg[u] :: reg[u][i]
  }

  lemma LookupPut(reg: Registry, s: Session, gen: Generation, t: Session)
    ensures Lookup(Put(reg, s, gen), t) == if t == s then Some(gen) else Lookup(reg, t)
    ensures TwoLevel.NoEmptyBucket(reg) ==> TwoLevel.NoEmptyBucket(Put(reg, s, gen))
  {
    TwoLevel.FindPut(reg, s.user, s.instance, gen, t.user, t.instance);
  }

  lemma LookupDrop(reg: Registry, s: Session, t: Session)
    ensures Lookup(Drop(reg, s), t) == if t == s then None else Lookup(reg, t)
    ensures TwoLevel.NoEmptyBucket(reg) ==> TwoLevel.NoEmptyBucket(Drop(reg, s))
  {
    TwoLevel.FindDrop(reg, s.user, s.instance, t.user, t.instance);
  }

  class MessageHub {
    var registry: Registry
    var genSeq: nat
    var cancelled: set<Generation>  // contexts whose cancel function has been called

    constructor ()
      ensures registry == map[] && genSeq == 0 && cancelled == {}
    {
      registry, genSeq, cancelled := map[], 0, {};
    }

    /** registerWithTTL up to the timer task: draws a generation and supersedes the previous one. */
    method Register(userId: string, instanceId: string) returns (gen: Generation)
      modifies this
      ensures gen == genSeq == old(genSeq) + 1
      ensures var s := Session(userId, instanceId);
        && registry == Put(old(registry), s, gen)
        && cancelled == old(cancelled) + (match Lookup(old(registry), s) case Some(prev) => {prev} case None => {})
    {
      genSeq := genSeq + 1;
      gen := genSeq;
      if userId !in registry {
        registry := registry[userId := map[]];
      }
      if instanceId in registry[userId] {
        cancelled := cancelled + {registry[userId][instanceId]};
      }
      var m: map<string, Generation> := registry[userId];
      registry := registry[userId := m[instanceId := gen]];
      assert registry == Put(old(registry), Session(userId, instanceId), gen);
    }

    /** The locked section of the timer task, once its timer has fired. */
    method TimerFired(userId: string, instanceId: string, gen: Generation)
      modifies this`registry
      ensures registry == Expire(old(registry), Session(userId, instanceId), gen)
    {
      if userId in registry {
        TwoLevel.DropBySize(registry, userId, instanceId);
        var m := registry[userId];
        if instanceId in m && m[instanceId] == gen {
          m := m - {instanceId};
          registry := registry[userId := m];
          if |m| == 0 {
            registry := registry - {userId};
          }
        }
      }
    }

    method Deregister(userId: string, instanceId: string)
      modifies this
      ensures var s := Session(userId, instanceId);
        && registry == Drop(old(registry), s)
        && cancelled == old(cancelled) + (match Lookup(old(registry), s) case Some(gen) => {gen} case None => {})
      ensures genSeq == old(genSeq)
    {
      if userId in registry {
        TwoLevel.DropBySize(registry, userId, instanceId);
        var m := registry[userId];
        if instanceId in m {
          cancelled := cancelled + {m[instanceId]};
          m := m - {instanceId};
          registry := registry[userId := m];
        } else {
          assert m == m - {instanceId};
        }
        if |m| == 0 {
          registry := registry - {userId};
        }
      }
    }

    method IsRegistered(userId: string, instanceId: string) returns (r: bool)
      ensures r == Lookup(registry, Session(userId, instanceId)).Some?
    {
      r := false;
      if userId in registry {
        r := instanceId in registry[userId];
      }
    }

    /** Lists each registered instance of a user exactly once. */
    method GetSessions(userId: string) returns (sessions: seq<string>)
      ensures forall i :: i in sessions <==> Lookup(registry, Session(userId, i)).Some?
      ensures forall i, j | 0 <= i < j < |sessions| :: sessions[i] != sessions[j]
    {
      sessions := [];
      if userId !in registry {
        return;
      }
      var left := registry[userId].Keys;
      while left != {}
        invariant left <= registry[userId].Keys
        invariant forall i :: i in sessions <==> i in registry[userId] && i !in left
        invariant forall i, j | 0 <= i < j < |sessions| :: sessions[i] != sessions[j]
        decreases |left|
      {
        var i :| i in left;
        sessions := sessions + [i];
        left := left - {i};
      }
    }

    /** Empties the registry in one locked section and then cancels what it held. */
    method Shutdown()
      modifies this
      ensures registry == map[]
      ensures cancelled == old(cancelled) + Registered(old(registry))
      ensures genSeq == old(genSeq)
    {
      var taken := registry;
      registry := map[];
      var users := taken.Keys;
      while users != {}
        invariant registry == map[] && genSeq == old(genSeq) && users <= taken.Keys
        invariant cancelled == old(cancelled) + set u, i | u in taken && u !in users && i in taken[u] :: taken[u][i]
        decreases |users|
      {
        var u :| u in users;
        cancelled := cancelled + set i | i in taken[u] :: taken[u][i];
        users := users - {u};
      }
    }
  }
}

/** Timers racing with registrations, deregistrations and shutdown. */
module HubTimers {
  import opened Common
  import opened Runs
  import opened Sessions
  import opened HubRegistry
  import TwoLevel

  /**
   The life of a registration: generation drawn; entry in the registry; timer task
   refused by the pool, or waiting; timer case chosen by the task's select; past the locked
   section, onExpired to come; onExpired called; or quit, on a cancelled context.
   */
  datatype Phase = Drawn | Inserted | Refused | Waiting | Chosen | Calling | Called | Quitted

  datatype Timer = Timer(session: Session, phase: Phase)

  datatype State = State(
    registry: Registry,
    genSeq: nat,
    timers: map<Generation, Timer>,
    cancelled: set<Generation>,
    cancelling: set<Generation>,  // taken by Shutdown, not yet cancelled
    expired: seq<Generation>)     // calls of onExpired

  /** One event for every atomic operation and locked section. */
  datatype Event =
    | Draw(session: Session)
    | Enter(gen: Generation)
    | Submit(gen: Generation, accepted: bool)
    | Choose(gen: Generation)
    | Quit(gen: Generation)
    | Fire(gen: Generation)     // the locked section
    | Call(gen: Generation)     // onExpired, after it
    | Deregister(session: Session)
    | TakeAll
    | CancelTaken(gen: Generation)

  const INIT := State(map[], 0, map[], {}, {}, [])

  predicate At(s: State, gen: Generation, phase: Phase) {
    gen in s.timers && s.timers[gen].phase == phase
  }

  function Move(s: State, gen: Generation, phase: Phase): State
    requires gen in s.timers
  {
    s.(timers := s.timers[gen := s.timers[gen].(phase := phase)])
  }

  function CancelEntry(s: State, session: Session): State {
    match Lookup(s.registry, session)
    case Some(gen) => s.(cancelled := s.cancelled + {gen})
    case None => s
  }

  ghost function Step(s: State, e: Event): State {
    match e
    case Draw(session) =>
      var gen := s.genSeq + 1;
      s.(genSeq := gen, timers := s.timers[gen := Timer(session, Drawn)])
    case Enter(gen) =>
      if !At(s, gen, Drawn) then s
      else
        var session := s.timers[gen].session;
        Move(CancelEntry(s, session).(registry := Put(s.registry, session, gen)), gen, Inserted)
    case Submit(gen, accepted) =>
      if !At(s, gen, Inserted) then s else Move(s, gen, if accepted then Waiting else Refused)
    case Choose(gen) =>
      // select may take the timer even when the context is cancelled as well
      if !At(s, gen, Waiting) then s else Move(s, gen, Chosen)
    case Quit(gen) =>
      if !At(s, gen, Waiting) || gen !in s.cancelled then s else Move(s, gen, Quitted)
    case Fire(gen) =>
      if !At(s, gen, Chosen) then s
      else Move(s.(registry := Expire(s.registry, s.timers[gen].session, gen)), gen, Calling)
    case Call(gen) =>
      if !At(s, gen, Calling) then s else Move(s.(expired := s.expired + [gen]), gen, Called)
    case Deregister(session) =>
      CancelEntry(s, session).(registry := Drop(s.registry, session))
    case TakeAll =>
      s.(registry := map[], cancelling := s.cancelling + Registered(s.registry))
    case CancelTaken(gen) =>
      if gen !in s.cancelling then s
      else s.(cancelling := s.cancelling - {gen}, cancelled := s.cancelled + {gen})
  }

  ghost function After(es: seq<Event>): State { Exec(Step, INIT, es) }

  /** Entered and not over: the entry, the task, or both still exist. */
  predicate Standing(s: State, gen: Generation) {
    gen in s.timers && s.timers[gen].phase in {Inserted, Refused, Waiting, Chosen}
  }

  ghost predicate EntriesStand(s: State) {
    forall t: Session | Lookup(s.registry, t).Some? ::
      var gen := Lookup(s.registry, t).value;
      Standing(s, gen) && s.timers[gen].session == t && gen !in s.cancelled && gen !in s.cancelling
  }

  ghost predicate StandingAreEntries(s: State) {
    forall gen | Standing(s, gen) && gen !in s.cancelled && gen !in s.cancelling ::
      Lookup(s.registry, s.timers[gen].session) == Some(gen)
  }

  ghost predicate Known(s: State) {
    && (forall gen | gen in s.timers :: gen <= s.genSeq)
    && (forall gen | gen in s.cancelled + s.cancelling :: gen in s.timers && s.timers[gen].phase != Drawn)
  }

  ghost predicate Inv(s: State) {
    EntriesStand(s) && StandingAreEntries(s) && Known(s) && TwoLevel.NoEmptyBucket(s.registry)
  }

  lemma LookupIsRegistered(reg: Registry, t: Session)
    ensures Lookup(reg, t).Some? ==> Lookup(reg, t).value in Registered(reg)
  {
  }

  lemma RegisteredIsLookup(reg: Registry, gen: Generation) returns (t: Session)
    requires gen in Registered(reg)
    ensures Lookup(reg, t) == Some(gen)
  {
    var u, i :| u in reg && i in reg[u] && reg[u][i] == gen;
    t := Session(u, i);
  }

  lemma EnterKeeps(s: State, e: Event)
    requires Inv(s) && e.Enter?
    ensures Inv(Step(s, e))
  {
    if At(s, e.gen, Drawn) {
      var session := s.timers[e.gen].session;
      forall t: Session { LookupPut(s.registry, session, e.gen, t); }
    }
  }

  lemma DropKeeps(s: State, e: Event)
    requires Inv(s) && (e.Deregister? || e.Fire?)
    ensures Inv(Step(s, e))
  {
    if e.Deregister? {
      forall t: Session { LookupDrop(s.registry, e.session, t); }
    } else if At(s, e.gen, Chosen) {
      forall t: Session { LookupDrop(s.registry, s.timers[e.gen].session, t); }
    }
  }

  lemma TakeKeeps(s: State, e: Event)
    requires Inv(s) && (e.TakeAll? || e.CancelTaken?)
    ensures Inv(Step(s, e))
  {
    forall t: Session { LookupIsRegistered(s.registry, t); }
    forall gen | gen in Registered(s.registry) ensures Standing(s, gen) {
      var t := RegisteredIsLookup(s.registry, gen);
    }
  }

  lemma StepKeeps(s: State, e: Event)
    requires Inv(s)
    ensures Inv(Step(s, e))
  {
    if e.Enter? {
      EnterKeeps(s, e);
    } else if e.Deregister? || e.Fire? {
      DropKeeps(s, e);
    } else if e.TakeAll? || e.CancelTaken? {
      TakeKeeps(s, e);
    }
  }

  lemma InvAfter(es: seq<Event>)
    ensures Inv(After(es))
  {
    forall s, e | Inv(s) ensures Inv(Step(s, e)) { StepKeeps(s, e); }
    Invariant(Step, Inv, INIT, es);
  }

  /** Entered, not over, and neither cancelled nor among those Shutdown is about to cancel. */
  predicate Untaken(s: State, gen: Generation) {
    Standing(s, gen) && gen !in s.cancelled && gen !in s.cancelling
  }

  /**
   The registry and the timers agree in every reachable state: a registration stands and
   is neither cancelled nor about to be exactly when it is the entry of its session; no
   user is left with an empty map; and with an empty registry every registration that stands
   is cancelled, or Shutdown is about to cancel it.
   */
  lemma RegistryMatchesTimers(es: seq<Event>, gen: Generation)
    ensures var s := After(es);
      && (Untaken(s, gen) <==> gen in s.timers && Lookup(s.registry, s.timers[gen].session) == Some(gen))
      && TwoLevel.NoEmptyBucket(s.registry)
      && (s.registry == map[] && Standing(s, gen) ==> gen in s.cancelled + s.cancelling)
  {
    InvAfter(es);
  }

  /** Cancelled for good exactly by its replacement, its deregistration, or Shutdown's loop over what it took. */
  predicate Cancels(s: State, e: Event, gen: Generation) {
    || (e.Enter? && At(s, e.gen, Drawn) && Lookup(s.registry, s.timers[e.gen].session) == Some(gen))
    || (e.Deregister? && Lookup(s.registry, e.session) == Some(gen))
    || (e == CancelTaken(gen) && gen in s.cancelling)
  }

  lemma CancelledExactlyAfter(es: seq<Event>, gen: Generation)
    ensures gen in After(es).cancelled <==> Ever(Step, INIT, es, (s: State, e: Event) => Cancels(s, e, gen))
  {
    ExactlyAfter(Step, INIT, es, (s: State, e: Event) => Cancels(s, e, gen), (s: State) => gen in s.cancelled);
  }

  /** Shutdown's loop has a registration before it exactly since it took it and until it cancels it. */
  lemma CancellingExactlySince(es: seq<Event>, gen: Generation)
    ensures gen in After(es).cancelling <==>
      Since(Step, INIT, es, (s: State, e: Event) => e == TakeAll && gen in Registered(s.registry),
            (s: State, e: Event) => e == CancelTaken(gen))
  {
    ExactlySince(Step, INIT, es, (s: State, e: Event) => e == TakeAll && gen in Registered(s.registry),
                 (s: State, e: Event) => e == CancelTaken(gen), (s: State) => gen in s.cancelling);
  }

  /** Of the timers a session has, at most one is live and not about to be cancelled by Shutdown. */
  lemma AtMostOneLiveTimer(es: seq<Event>, g1: Generation, g2: Generation)
    requires Untaken(After(es), g1) && Untaken(After(es), g2)
    requires After(es).timers[g1].session == After(es).timers[g2].session
    ensures g1 == g2
  {
    InvAfter(es);
  }

  /** A fired timer takes out its own registration or nothing, in any state at all. */
  lemma StaleTimerRemovesNothing(s: State, gen: Generation, t: Session)
    ensures Lookup(Step(s, Fire(gen)).registry, t) ==
      if At(s, gen, Chosen) && s.timers[gen].session == t && Lookup(s.registry, t) == Some(gen) then None
      else Lookup(s.registry, t)
  {
    if At(s, gen, Chosen) {
      LookupDrop(s.registry, s.timers[gen].session, t);
    }
  }

  // ----- Which registration is in force -----

  /** The event: generation `g` becomes the entry of session `t`. */
  function Enters(t: Session, g: Generation): (State, Event) -> bool {
    (s: State, e: Event) => e == Enter(g) && At(s, g, Drawn) && s.timers[g].session == t
  }

  /** The event: that entry is replaced, deregistered, taken by Shutdown, or expires. */
  function Leaves(t: Session, g: Generation): (State, Event) -> bool {
    (s: State, e: Event) =>
      || (e.Enter? && At(s, e.gen, Drawn) && s.timers[e.gen].session == t)
      || e == Deregister(t)
      || e == TakeAll
      || (e == Fire(g) && At(s, g, Chosen) && s.timers[g].session == t)
  }

  lemma EntryStep(s: State, e: Event, t: Session, g: Generation)
    ensures Lookup(Step(s, e).registry, t) == Some(g) <==>
      (Enters(t, g)(s, e) || (Lookup(s.registry, t) == Some(g) && !Leaves(t, g)(s, e)))
  {
    match e
    case Enter(gen) =>
      if At(s, gen, Drawn) {
        LookupPut(s.registry, s.timers[gen].session, gen, t);
      }
    case Deregister(session) => LookupDrop(s.registry, session, t);
    case Fire(gen) =>
      if At(s, gen, Chosen) {
        LookupDrop(s.registry, s.timers[gen].session, t);
      }
    case _ =>
  }

  /** A registration is its session's entry exactly since it was entered and until it leaves. */
  lemma InForceExactlySince(es: seq<Event>, t: Session, g: Generation)
    ensures Lookup(After(es).registry, t) == Some(g) <==> Since(Step, INIT, es, Enters(t, g), Leaves(t, g))
  {
    var q := (s: State) => Lookup(s.registry, t) == Some(g);
    forall s, e ensures q(Step(s, e)) <==> Enters(t, g)(s, e) || (q(s) && !Leaves(t, g)(s, e)) { EntryStep(s, e, t, g); }
    ExactlySince(Step, INIT, es, Enters(t, g), Leaves(t, g), q);
  }

  /**
   The generation check guards the registry and not onExpired, which follows outside the
   lock. In the locked section a chosen timer finds its own registration in force exactly
   if no deregistration, later registration or shutdown has taken it.
   */
  lemma LockedSectionIsCurrentExactly(es: seq<Event>, gen: Generation)
    requires At(After(es), gen, Chosen)
    ensures var s := After(es);
      Lookup(s.registry, s.timers[gen].session) == Some(gen) <==> gen !in s.cancelled && gen !in s.cancelling
  {
    InvAfter(es);
  }

  /**
   A timer past its locked section calls onExpired whatever happens before, with its own
   registration no longer in force; and it meets another one of its session in force exactly
   if one has been entered and has not left since.
   */
  lemma CallIsOvertakenExactly(es: seq<Event>, gen: Generation)
    requires At(After(es), gen, Calling)
    ensures After(es + [Call(gen)]).expired == After(es).expired + [gen]
    ensures var t := After(es).timers[gen].session;
      && Lookup(After(es).registry, t) != Some(gen)
      && (Lookup(After(es).registry, t).Some? <==> exists g :: Since(Step, INIT, es, Enters(t, g), Leaves(t, g)))
  {
    InvAfter(es);
    Snoc(Step, INIT, es, Call(gen));
    var t := After(es).timers[gen].session;
    forall g { InForceExactlySince(es, t, g); }
    var entry := Lookup(After(es).registry, t);
    if entry.Some? {
      assert Since(Step, INIT, es, Enters(t, entry.value), Leaves(t, entry.value));
    }
  }

  ghost predicate CallsKnown(s: State) {
    && (forall gen :: gen in s.expired <==> At(s, gen, Called))
    && (forall i, j | 0 <= i < j < |s.expired| :: s.expired[i] != s.expired[j])
    && (forall gen | gen in s.timers :: gen <= s.genSeq)
  }

  lemma CallsKept(s: State, e: Event)
    requires CallsKnown(s)
    ensures CallsKnown(Step(s, e))
  {
    var t := Step(s, e);
    if e.Call? && At(s, e.gen, Calling) {
      assert e.gen !in s.expired;
      assert forall gen :: gen in t.expired <==> gen in s.expired || gen == e.gen;
    } else {
      assert t.expired == s.expired;
    }
  }

  /** Every registration's expiry call is made once at most, and never if its task has quit. */
  lemma CalledAtMostOnce(es: seq<Event>, gen: Generation)
    ensures var s := After(es);
      && (gen in s.expired <==> At(s, gen, Called))
      && (forall i, j | 0 <= i < j < |s.expired| :: s.expired[i] != s.expired[j])
  {
    forall s, e | CallsKnown(s) ensures CallsKnown(Step(s, e)) { CallsKept(s, e); }
    Invariant(Step, CallsKnown, INIT, es);
  }

  // ----- Runs in which the call is for a registration past -----

  /** The first absence of a session, with its timer chosen. */
  const FIRST := 1

  function ToChosen(t: Session): seq<Event> { [Draw(t), Enter(FIRST), Submit(FIRST, true), Choose(FIRST)] }

  /** The session reconnects and leaves again. */
  function AwayAgain(t: Session): seq<Event> { [Deregister(t), Draw(t), Enter(2)] }

  /** The timer of the first absence is overtaken before its locked section ... */
  lemma StaleExpiryHappens(t: Session)
    ensures var s := After(ToChosen(t) + AwayAgain(t) + [Fire(FIRST)] + [Call(FIRST)]);
      s.expired == [FIRST] && Lookup(s.registry, t) == Some(2)
  {
    var s := Choosing(t);
    Concat(Step, INIT, ToChosen(t), AwayAgain(t));
    var u := LeavesAgain(s, t);
    CallFollows(ToChosen(t) + AwayAgain(t), t);
  }

  lemma CallFollows(es: seq<Event>, t: Session)
    requires var s := After(es);
      At(s, FIRST, Chosen) && s.timers[FIRST].session == t && s.expired == [] && Lookup(s.registry, t) == Some(2)
    ensures var s := After(es + [Fire(FIRST)] + [Call(FIRST)]); s.expired == [FIRST] && Lookup(s.registry, t) == Some(2)
  {
    Snoc(Step, INIT, es, Fire(FIRST));
    Snoc(Step, INIT, es + [Fire(FIRST)], Call(FIRST));
    var s := Step(After(es), Fire(FIRST));
    assert s.registry == After(es).registry && At(s, FIRST, Calling) && s.expired == [];
  }

  /** ... or between it and the call, in which case nobody ever cancelled it. */
  lemma OvertakenCallHappens(t: Session)
    ensures var s := After(ToChosen(t) + [Fire(FIRST)] + AwayAgain(t) + [Call(FIRST)]);
      s.expired == [FIRST] && Lookup(s.registry, t) == Some(2) && FIRST !in s.cancelled && FIRST !in s.cancelling
  {
    var s := Choosing(t);
    Snoc(Step, INIT, ToChosen(t), Fire(FIRST));
    var f := Step(s, Fire(FIRST));
    LookupDrop(s.registry, t, t);
    assert At(f, FIRST, Calling) && f.timers[FIRST].session == t && f.genSeq == 1 && Lookup(f.registry, t) == None;
    Concat(Step, INIT, ToChosen(t) + [Fire(FIRST)], AwayAgain(t));
    var u := LeavesAgain(f, t);
    Snoc(Step, INIT, ToChosen(t) + [Fire(FIRST)] + AwayAgain(t), Call(FIRST));
  }

  /** The second absence, with the first timer still to act. */
  lemma LeavesAgain(s: State, t: Session) returns (u: State)
    requires s.genSeq == 1 && FIRST in s.timers
    ensures u == Exec(Step, s, AwayAgain(t))
    ensures 1 in u.timers && u.timers[1] == s.timers[1] && u.expired == s.expired && Lookup(u.registry, t) == Some(2)
    ensures Lookup(s.registry, t) == None ==> u.cancelled == s.cancelled
    ensures u.cancelling == s.cancelling
  {
    ExecThree(Step, s, Deregister(t), Draw(t), Enter(2));
    var d := Step(Step(s, Deregister(t)), Draw(t));
    assert d.timers == s.timers[2 := Timer(t, Drawn)] && d.expired == s.expired && d.cancelling == s.cancelling;
    LookupDrop(s.registry, t, t);
    assert Lookup(d.registry, t) == None;
    u := Step(d, Enter(2));
    LookupPut(d.registry, t, 2, t);
  }

  lemma Choosing(t: Session) returns (s: State)
    ensures s == After(ToChosen(t))
    ensures At(s, FIRST, Chosen) && s.timers[FIRST].session == t && s.genSeq == 1 && s.expired == []
    ensures s.cancelled == {} && s.cancelling == {} && Lookup(s.registry, t) == Some(FIRST)
  {
    Exec4(Step, INIT, Draw(t), Enter(FIRST), Submit(FIRST, true), Choose(FIRST));
    var s2 := Step(Step(INIT, Draw(t)), Enter(FIRST));
    LookupPut(INIT.registry, t, FIRST, t);
    assert At(s2, FIRST, Inserted) && s2.timers[FIRST].session == t && s2.genSeq == 1;
    s := Step(Step(s2, Submit(FIRST, true)), Choose(FIRST));
  }
}
