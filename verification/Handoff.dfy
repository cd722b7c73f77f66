/**
 Graceful shutdown racing the close callback for the record of a session.

 The callback removes its connection from the manager and then tests the shutdown flag;
 Shutdown sets the flag and then lists the manager. Each is a sequence of separate steps.
 */
module Handoff {
  import opened Runs
  import opened Sessions

  datatype Status = Connected | TempDisconnected | Transferring

  /** A run of the close callback: entered, out of the manager, past the flag test, wrote, skipped. */
  datatype CloseStage = Entered | Removed | Clear | Wrote | Skipped

  datatype Closer = Closer(session: Session, stage: CloseStage)

  type CloserId = nat

  datatype State = State(
    manager: set<Session>,
    records: map<Session, Status>,
    closers: map<CloserId, Closer>,
    flag: bool,
    taken: bool,               // Shutdown has listed the manager
    snapshot: set<Session>,    // what it listed
    todo: set<Session>,        // listed, not marked yet
    early: set<CloserId>,      // callbacks that removed their connection before the listing
    back: set<CloserId>,       // those of them whose session was admitted again, and not removed again, before it
    found: set<CloserId>,      // callbacks that removed after the listing, and found a connection
    added: set<Session>)       // admitted after the listing

  datatype Event =
    | Upsert(session: Session)                 // new connection: the record
    | AddConnection(session: Session)          // new connection: the manager
    | StartClose(closer: CloserId, session: Session)
    | RemoveConnection(closer: CloserId)
    | TestFlag(closer: CloserId)
    | WriteTemp(closer: CloserId, ok: bool)    // on failure the callback deletes the record
    | MarkShuttingDown
    | ListConnections
    | Transfer(session: Session, ok: bool)

  const INIT := State({}, map[], map[], false, false, {}, {}, {}, {}, {}, {})

  predicate At(s: State, k: CloserId, stage: CloseStage) {
    k in s.closers && s.closers[k].stage == stage
  }

  /** The callback is out of the manager. */
  predicate Out(s: State, k: CloserId) {
    k in s.closers && s.closers[k].stage != Entered
  }

  function Move(s: State, k: CloserId, stage: CloseStage): State
    requires k in s.closers
  {
    s.(closers := s.closers[k := s.closers[k].(stage := stage)])
  }

  /** Both stores update a status only where there is a record, and report success either way. */
  function Update(records: map<Session, Status>, x: Session, status: Status): map<Session, Status> {
    if x in records then records[x := status] else records
  }

  function Admit(s: State, x: Session): State {
    if s.taken then s.(manager := s.manager + {x}, added := s.added + {x})
    else s.(manager := s.manager + {x}, back := s.back + set k | k in s.closers && Out(s, k) && s.closers[k].session == x)
  }

  function Remove(s: State, k: CloserId): State {
    if !At(s, k, Entered) then s
    else
      var x := s.closers[k].session;
      var t := Move(s, k, Removed).(manager := s.manager - {x});
      if s.taken then t.(found := if x in s.manager then s.found + {k} else s.found)
      else t.(early := s.early + {k}, back := set j | j in s.back && !(j in s.closers && s.closers[j].session == x))
  }

  function Test(s: State, k: CloserId): State {
    if !At(s, k, Removed) then s
    else
      var x := s.closers[k].session;
      if Anonymous(x) then Move(s, k, Skipped).(records := s.records - {x})
      else if s.flag then Move(s, k, Skipped)
      else Move(s, k, Clear)
  }

  function Write(s: State, k: CloserId, ok: bool): State {
    if !At(s, k, Clear) then s
    else
      var x := s.closers[k].session;
      Move(s, k, Wrote).(records := if ok then Update(s.records, x, TempDisconnected) else s.records - {x})
  }

  function List(s: State): State {
    if !s.flag || s.taken then s
    else
      var authenticated := set x | x in s.manager && !Anonymous(x);
      s.(taken := true, snapshot := authenticated, todo := authenticated)
  }

  function Mark(s: State, x: Session, ok: bool): State {
    if x !in s.todo then s
    else s.(todo := s.todo - {x}, records := if ok then Update(s.records, x, Transferring) else s.records)
  }

  function Step(s: State, e: Event): State {
    match e
    case Upsert(x) => s.(records := s.records[x := Connected])
    case AddConnection(x) => Admit(s, x)
    case StartClose(k, x) => if k in s.closers then s else s.(closers := s.closers[k := Closer(x, Entered)])
    case RemoveConnection(k) => Remove(s, k)
    case TestFlag(k) => Test(s, k)
    case WriteTemp(k, ok) => Write(s, k, ok)
    case MarkShuttingDown => s.(flag := true)
    case ListConnections => List(s)
    case Transfer(x, ok) => Mark(s, x, ok)
  }

  ghost function After(es: seq<Event>): State { Exec(Step, INIT, es) }

  /** Past the flag test with the flag down: this callback writes, or will write, the record. */
  predicate Writer(s: State, k: CloserId) { At(s, k, Clear) || At(s, k, Wrote) }

  // ----- What every run keeps -----

  /** What Shutdown listed, or would list now. */
  function Listing(s: State): set<Session> { if s.taken then s.snapshot else s.manager }

  ghost predicate EarlyKnown(s: State) {
    && (forall k | k in s.early :: Out(s, k))
    && (forall k | k in s.back :: k in s.early)
    && (forall k | Writer(s, k) :: k in s.early && !Anonymous(s.closers[k].session))
    && (!s.taken ==> forall k | Out(s, k) :: k in s.early)
  }

  ghost predicate BackIsListed(s: State) {
    forall k | k in s.early && Out(s, k) && !Anonymous(s.closers[k].session) ::
      k in s.back <==> s.closers[k].session in Listing(s)
  }

  ghost predicate LateKnown(s: State) {
    && (s.taken ==> forall x | x in s.manager && !Anonymous(x) :: x in s.snapshot || x in s.added)
    && (forall k | k in s.found && Out(s, k) && !Anonymous(s.closers[k].session) ::
          s.closers[k].session in s.snapshot || s.closers[k].session in s.added)
    && (forall k | k in s.found :: s.taken && Out(s, k))
  }

  ghost predicate Bookkeeping(s: State) {
    && (s.taken ==> s.flag)
    && (!s.taken ==> s.todo == {})
    && (forall x | x in s.snapshot || x in s.todo :: !Anonymous(x))
    && (forall x | x in s.records && s.records[x] == Transferring :: s.taken && !Anonymous(x))
  }

  lemma EarlyKept(s: State, e: Event)
    requires EarlyKnown(s) && Bookkeeping(s)
    ensures EarlyKnown(Step(s, e))
  {
  }

  lemma BackKept(s: State, e: Event)
    requires EarlyKnown(s) && BackIsListed(s)
    ensures BackIsListed(Step(s, e))
  {
    var t := Step(s, e);
    forall k | k in t.early && Out(t, k) && !Anonymous(t.closers[k].session)
      ensures k in t.back <==> t.closers[k].session in Listing(t)
    {
      BackKeptFor(s, e, k);
    }
  }

  lemma BackKeptFor(s: State, e: Event, k: CloserId)
    requires EarlyKnown(s) && BackIsListed(s)
    requires var t := Step(s, e); k in t.early && Out(t, k) && !Anonymous(t.closers[k].session)
    ensures var t := Step(s, e); k in t.back <==> t.closers[k].session in Listing(t)
  {
    EarlyStep(s, e, k);
    BackStep(s, e, k);
    CloserStep(s, e, k);
    ListingStep(s, e, s.closers[k].session);
    BackAgrees(s, e, Step(s, e), k);
  }

  lemma CloserStep(s: State, e: Event, k: CloserId)
    requires Out(Step(s, e), k)
    ensures k in s.closers && Step(s, e).closers[k].session == s.closers[k].session
    ensures Out(s, k) || (e == RemoveConnection(k) && At(s, k, Entered))
  {
  }

  /** What the four step lemmas say of `t` is enough. */
  lemma BackAgrees(s: State, e: Event, t: State, k: CloserId)
    requires EarlyKnown(s) && BackIsListed(s)
    requires k in t.early && k in s.closers && k in t.closers && !Anonymous(s.closers[k].session)
    requires t.closers[k].session == s.closers[k].session && (Out(s, k) || (e == RemoveConnection(k) && At(s, k, Entered)))
    requires k in t.early <==> k in s.early || RemovesEarly(k)(s, e)
    requires k in t.back <==> Readmits(k)(s, e) || (k in s.back && !RemovesAgain(k)(s, e))
    requires s.closers[k].session in Listing(t) <==> IsListed(s, e, s.closers[k].session)
    ensures k in t.back <==> t.closers[k].session in Listing(t)
  {
  }

  /** The session is on the listing after the event. */
  predicate IsListed(s: State, e: Event, x: Session) {
    var removed := e.RemoveConnection? && At(s, e.closer, Entered) && s.closers[e.closer].session == x;
    if s.taken then x in s.snapshot else e == AddConnection(x) || (x in s.manager && !removed)
  }

  lemma ListingStep(s: State, e: Event, x: Session)
    requires !Anonymous(x)
    ensures x in Listing(Step(s, e)) <==> IsListed(s, e, x)
  {
  }

  lemma LateKept(s: State, e: Event)
    requires LateKnown(s)
    ensures LateKnown(Step(s, e))
  {
  }

  lemma BookkeepingKept(s: State, e: Event)
    requires Bookkeeping(s)
    ensures Bookkeeping(Step(s, e))
  {
  }

  ghost predicate Inv(s: State) { EarlyKnown(s) && BackIsListed(s) && LateKnown(s) && Bookkeeping(s) }

  lemma InvAfter(es: seq<Event>)
    ensures Inv(After(es))
  {
    forall s, e | Inv(s) ensures Inv(Step(s, e)) {
      EarlyKept(s, e);
      BackKept(s, e);
      LateKept(s, e);
      BookkeepingKept(s, e);
    }
    Invariant(Step, Inv, INIT, es);
  }

  // ----- What happened to a callback, by the events of the run -----

  /** The event: the callback removes its connection, before the listing. */
  function RemovesEarly(k: CloserId): (State, Event) -> bool {
    (s: State, e: Event) => e == RemoveConnection(k) && At(s, k, Entered) && !s.taken
  }

  /** The event: the session of a callback that is out of the manager is admitted again, before the listing. */
  function Readmits(k: CloserId): (State, Event) -> bool {
    (s: State, e: Event) => e.AddConnection? && Out(s, k) && s.closers[k].session == e.session && !s.taken
  }

  /** The event: that session is removed again, by whichever callback, before the listing. */
  function RemovesAgain(k: CloserId): (State, Event) -> bool {
    (s: State, e: Event) =>
      && e.RemoveConnection? && At(s, e.closer, Entered) && !s.taken
      && k in s.closers && s.closers[k].session == s.closers[e.closer].session
  }

  ghost predicate WasEarly(es: seq<Event>, k: CloserId) { Ever(Step, INIT, es, RemovesEarly(k)) }

  /** Its session was admitted again after it, and has not been removed again, before the listing. */
  ghost predicate CameBack(es: seq<Event>, k: CloserId) { Since(Step, INIT, es, Readmits(k), RemovesAgain(k)) }

  lemma EarlyStep(s: State, e: Event, k: CloserId)
    ensures k in Step(s, e).early <==> k in s.early || RemovesEarly(k)(s, e)
  {
  }

  lemma BackStep(s: State, e: Event, k: CloserId)
    ensures k in Step(s, e).back <==> Readmits(k)(s, e) || (k in s.back && !RemovesAgain(k)(s, e))
  {
    match e
    case AddConnection(x) =>
      assert !s.taken ==> (k in Admit(s, x).back <==> k in s.back || (Out(s, k) && s.closers[k].session == x));
    case RemoveConnection(j) =>
      if At(s, j, Entered) && !s.taken {
        var x := s.closers[j].session;
        assert k in Remove(s, j).back <==> k in s.back && !(k in s.closers && s.closers[k].session == x);
      }
    case _ =>
  }

  lemma EarlyExactly(es: seq<Event>, k: CloserId)
    ensures k in After(es).early <==> WasEarly(es, k)
  {
    var q := (s: State) => k in s.early;
    forall s, e ensures q(Step(s, e)) <==> q(s) || RemovesEarly(k)(s, e) { EarlyStep(s, e, k); }
    ExactlyAfter(Step, INIT, es, RemovesEarly(k), q);
  }

  lemma BackExactly(es: seq<Event>, k: CloserId)
    ensures k in After(es).back <==> CameBack(es, k)
  {
    var q := (s: State) => k in s.back;
    forall s, e ensures q(Step(s, e)) <==> Readmits(k)(s, e) || (q(s) && !RemovesAgain(k)(s, e)) { BackStep(s, e, k); }
    ExactlySince(Step, INIT, es, Readmits(k), RemovesAgain(k), q);
  }

  // ----- Who writes a session's record -----

  /**
   A callback that got past the flag test and Shutdown both write a session exactly if it
   was admitted again, and not removed again, between that callback's removal and the listing.
   */
  lemma BothWriteExactlyIfBack(es: seq<Event>, k: CloserId)
    requires Writer(After(es), k) && After(es).taken
    ensures After(es).closers[k].session in After(es).snapshot <==> CameBack(es, k)
  {
    InvAfter(es);
    BackExactly(es, k);
  }

  /**
   A callback that removed before the listing and found the flag up leaves its session to
   nobody, exactly unless the session came back in the same sense.
   */
  lemma NeitherWritesExactlyUnlessBack(es: seq<Event>, k: CloserId)
    requires At(After(es), k, Skipped) && WasEarly(es, k) && After(es).taken
    requires !Anonymous(After(es).closers[k].session)
    ensures After(es).closers[k].session !in After(es).snapshot <==> !CameBack(es, k)
  {
    InvAfter(es);
    EarlyExactly(es, k);
    BackExactly(es, k);
  }

  /** The event: the callback removes after the listing, and finds a connection. */
  function RemovesLate(k: CloserId): (State, Event) -> bool {
    (s: State, e: Event) => e == RemoveConnection(k) && At(s, k, Entered) && s.taken && s.closers[k].session in s.manager
  }

  /** The event: the session is admitted after the listing. */
  function AdmitsLate(x: Session): (State, Event) -> bool { (s: State, e: Event) => e == AddConnection(x) && s.taken }

  lemma LateStep(s: State, e: Event, k: CloserId)
    ensures k in Step(s, e).found <==> k in s.found || RemovesLate(k)(s, e)
  {
  }

  lemma AddedStep(s: State, e: Event, x: Session)
    ensures x in Step(s, e).added <==> x in s.added || AdmitsLate(x)(s, e)
  {
  }

  lemma FoundExactly(es: seq<Event>, k: CloserId)
    ensures k in After(es).found <==> Ever(Step, INIT, es, RemovesLate(k))
  {
    var q := (s: State) => k in s.found;
    forall s, e ensures q(Step(s, e)) <==> q(s) || RemovesLate(k)(s, e) { LateStep(s, e, k); }
    ExactlyAfter(Step, INIT, es, RemovesLate(k), q);
  }

  lemma AddedExactly(es: seq<Event>, x: Session)
    ensures x in After(es).added <==> Ever(Step, INIT, es, AdmitsLate(x))
  {
    var q := (s: State) => x in s.added;
    forall s, e ensures q(Step(s, e)) <==> q(s) || AdmitsLate(x)(s, e) { AddedStep(s, e, x); }
    ExactlyAfter(Step, INIT, es, AdmitsLate(x), q);
  }

  /**
   A callback that removes after the listing never writes, and a connection it removed is
   one that was listed or that was admitted after the listing.
   */
  lemma LateCallbackNeverWrites(es: seq<Event>, k: CloserId)
    requires Out(After(es), k) && !WasEarly(es, k)
    ensures var s := After(es);
      var x := s.closers[k].session;
      && s.taken && !Writer(s, k)
      && (Ever(Step, INIT, es, RemovesLate(k)) && !Anonymous(x) ==>
            x in s.snapshot || Ever(Step, INIT, es, AdmitsLate(x)))
  {
    InvAfter(es);
    EarlyExactly(es, k);
    FoundExactly(es, k);
    AddedExactly(es, After(es).closers[k].session);
  }

  ghost predicate NoReconnect(fs: seq<Event>, x: Session) {
    forall i | 0 <= i < |fs| :: fs[i] != Upsert(x)
  }

  /** No callback of the session is between the flag test and its write. */
  ghost predicate NobodyClear(s: State, x: Session) {
    forall k | At(s, k, Clear) :: s.closers[k].session != x
  }

  ghost predicate IsTransferring(s: State, x: Session) { x in s.records && s.records[x] == Transferring }

  /**
   A session marked Transferring stays so until it connects again, whatever happens, exactly
   if no callback of it stands between the flag test and its write.
   */
  lemma TransferringSticks(es: seq<Event>, x: Session)
    requires IsTransferring(After(es), x)
    ensures (forall fs: seq<Event> | NoReconnect(fs, x) :: IsTransferring(After(es + fs), x)) <==> NobodyClear(After(es), x)
  {
    InvAfter(es);
    var s := After(es);
    if NobodyClear(s, x) {
      forall fs: seq<Event> | NoReconnect(fs, x) ensures IsTransferring(After(es + fs), x) {
        Concat(Step, INIT, es, fs);
        Sticks(s, fs, x);
      }
    } else {
      var k :| At(s, k, Clear) && s.closers[k].session == x;
      var fs := [WriteTemp(k, true)];
      Snoc(Step, INIT, es, WriteTemp(k, true));
      assert NoReconnect(fs, x) && !IsTransferring(After(es + fs), x);
    }
  }

  ghost predicate Stuck(s: State, x: Session) {
    s.flag && !Anonymous(x) && IsTransferring(s, x) && NobodyClear(s, x)
  }

  lemma StuckKept(s: State, e: Event, x: Session)
    requires Stuck(s, x) && e != Upsert(x)
    ensures Stuck(Step(s, e), x)
  {
  }

  lemma {:induction false} Sticks(s: State, fs: seq<Event>, x: Session)
    requires Stuck(s, x) && NoReconnect(fs, x)
    ensures Stuck(Exec(Step, s, fs), x)
  {
    if fs == [] {
    } else {
      var front := fs[..|fs| - 1];
      Sticks(s, front, x);
      StuckKept(Exec(Step, s, front), fs[|fs| - 1], x);
    }
  }

  /**
   Both cases happen. From any reachable state with a callback past the flag test and the
   manager not listed yet, admitting the session again lets both sides write, and the
   callback's TempDisconnected is what remains.
   */
  lemma ReadmissionLetsBothWrite(es: seq<Event>, k: CloserId)
    requires At(After(es), k, Clear) && !After(es).taken
    ensures var x := After(es).closers[k].session;
      var s := After(es + [Upsert(x), AddConnection(x), MarkShuttingDown, ListConnections, Transfer(x, true)]);
      var t := Step(s, WriteTemp(k, true));
      && IsTransferring(s, x) && At(s, k, Clear)
      && At(t, k, Wrote) && x in t.records && t.records[x] == TempDisconnected
  {
    InvAfter(es);
    var s := After(es);
    var x := s.closers[k].session;
    assert Writer(s, k);
    var a, b, c, d, e := Upsert(x), AddConnection(x), MarkShuttingDown, ListConnections, Transfer(x, true);
    Concat(Step, INIT, es, [a, b, c, d, e]);
    Exec4(Step, s, a, b, c, d);
    Snoc(Step, s, [a, b, c, d], e);
    assert [a, b, c, d] + [e] == [a, b, c, d, e];
    var s2 := Step(Step(s, a), b);
    assert x in s2.manager && x in s2.records && At(s2, k, Clear);
    var s4 := Step(Step(s2, c), d);
    assert x in s4.todo && x in s4.records && At(s4, k, Clear);
  }

  /** And a callback out of the manager before the flag goes up, testing it after, leaves the record to nobody. */
  lemma NeitherMayWrite(es: seq<Event>, k: CloserId)
    requires At(After(es), k, Removed) && !After(es).taken && !CameBack(es, k)
    requires !Anonymous(After(es).closers[k].session)
    ensures var x := After(es).closers[k].session;
      var s := After(es + [MarkShuttingDown, TestFlag(k), ListConnections]);
      At(s, k, Skipped) && x !in s.snapshot && s.records == After(es).records
  {
    InvAfter(es);
    BackExactly(es, k);
    var fs := [MarkShuttingDown, TestFlag(k), ListConnections];
    Concat(Step, INIT, es, fs);
    ExecThree(Step, After(es), MarkShuttingDown, TestFlag(k), ListConnections);
  }

  // ----- What the two sides do -----

  /** The flag is up exactly after MarkShuttingDown. */
  lemma FlagExactly(es: seq<Event>)
    ensures After(es).flag <==> MarkShuttingDown in es
  {
    var marks := (s: State, e: Event) => e == MarkShuttingDown;
    ExactlyAfter(Step, INIT, es, marks, (s: State) => s.flag);
    assert forall i | 0 <= i < |es| :: Meets(Step, INIT, es, marks, i) <==> es[i] == MarkShuttingDown;
  }

  /** A session has a connection exactly since it was admitted, until a callback of it removes it. */
  lemma ConnectedExactlySince(es: seq<Event>, x: Session)
    ensures x in After(es).manager <==>
      Since(Step, INIT, es, (s: State, e: Event) => e == AddConnection(x),
            (s: State, e: Event) => e.RemoveConnection? && At(s, e.closer, Entered) && s.closers[e.closer].session == x)
  {
    ExactlySince(Step, INIT, es, (s: State, e: Event) => e == AddConnection(x),
                 (s: State, e: Event) => e.RemoveConnection? && At(s, e.closer, Entered) && s.closers[e.closer].session == x,
                 (s: State) => x in s.manager);
  }

  /**
   An undisturbed callback takes its session out of the manager. The record of an anonymous
   session goes; else, before the flag is up, an existing record becomes TempDisconnected,
   or goes if that fails; and with the flag up it is left alone.
   */
  lemma CallbackSettles(es: seq<Event>, k: CloserId, x: Session, ok: bool)
    requires k !in After(es).closers
    ensures var s := After(es);
      var s' := After(es + [StartClose(k, x), RemoveConnection(k), TestFlag(k), WriteTemp(k, ok)]);
      && s'.manager == s.manager - {x}
      && s'.records ==
           if Anonymous(x) || (!s.flag && !ok) then s.records - {x}
           else if s.flag || x !in s.records then s.records
           else s.records[x := TempDisconnected]
  {
    Concat(Step, INIT, es, [StartClose(k, x), RemoveConnection(k), TestFlag(k), WriteTemp(k, ok)]);
    Exec4(Step, After(es), StartClose(k, x), RemoveConnection(k), TestFlag(k), WriteTemp(k, ok));
    Settles(After(es), k, x, ok);
  }

  lemma Settles(s: State, k: CloserId, x: Session, ok: bool)
    requires k !in s.closers
    ensures var s' := Write(Test(Remove(Step(s, StartClose(k, x)), k), k), k, ok);
      && s'.manager == s.manager - {x}
      && s'.records ==
           if Anonymous(x) || (!s.flag && !ok) then s.records - {x}
           else if s.flag || x !in s.records then s.records
           else s.records[x := TempDisconnected]
  {
    var s2 := Remove(Step(s, StartClose(k, x)), k);
    assert At(s2, k, Removed) && s2.closers[k].session == x && s2.manager == s.manager - {x} && s2.records == s.records;
  }

  /** Shutdown lists every authenticated connection there is, once, and only with the flag up. */
  lemma ListsExactly(es: seq<Event>)
    requires !After(es).taken
    ensures var s := After(es + [ListConnections]);
      && s.taken == After(es).flag
      && (s.taken ==> forall x :: x in s.snapshot <==> x in After(es).manager && !Anonymous(x))
  {
    Snoc(Step, INIT, es, ListConnections);
  }

  /** The event: Shutdown lists the manager. */
  predicate Lists(s: State, e: Event) { e == ListConnections && s.flag && !s.taken }

  function Includes(x: Session): (State, Event) -> bool {
    (s: State, e: Event) => Lists(s, e) && x in s.manager && !Anonymous(x)
  }

  function Transfers(x: Session): (State, Event) -> bool {
    (s: State, e: Event) => Lists(s, e) || (e.Transfer? && e.session == x)
  }

  /** A session is to be marked exactly since a listing that had it, until its transfer or another listing. */
  lemma MarkedOnce(es: seq<Event>, x: Session)
    ensures x in After(es).todo <==> Since(Step, INIT, es, Includes(x), Transfers(x))
  {
    var q := (s: State) => x in s.todo;
    forall s, e ensures q(Step(s, e)) <==> Includes(x)(s, e) || (q(s) && !Transfers(x)(s, e)) { TodoStep(s, e, x); }
    ExactlySince(Step, INIT, es, Includes(x), Transfers(x), q);
  }

  lemma TodoStep(s: State, e: Event, x: Session)
    ensures x in Step(s, e).todo <==> Includes(x)(s, e) || (x in s.todo && !Transfers(x)(s, e))
  {
  }

  /** The transfer of a listed session makes an existing record Transferring, if it succeeds, and touches no other. */
  lemma TransferMarks(es: seq<Event>, x: Session, ok: bool)
    requires x in After(es).todo
    ensures After(es + [Transfer(x, ok)]).records ==
      if ok && x in After(es).records then After(es).records[x := Transferring] else After(es).records
  {
    Snoc(Step, INIT, es, Transfer(x, ok));
  }

  class Mediator {
    var records: map<Session, Status>
    var transferringConns: seq<Session>

    /**
     The marking loop over the listed connections: `outcomes` says which store updates go
     through. Every session is noted; exactly those with a record and a successful update
     become Transferring.
     */
    method ShutdownAuthenticated(listed: seq<Session>, outcomes: seq<bool>)
      requires |outcomes| == |listed|
      modifies this
      ensures transferringConns == listed
      ensures records.Keys == old(records).Keys
      ensures forall x | x in records ::
        records[x] == if exists i :: 0 <= i < |listed| && listed[i] == x && outcomes[i] then Transferring else old(records)[x]
    {
      transferringConns := [];
      for i := 0 to |listed|
        invariant transferringConns == listed[..i]
        invariant records.Keys == old(records).Keys
        invariant forall x | x in records ::
          records[x] == if exists j :: 0 <= j < i && listed[j] == x && outcomes[j] then Transferring else old(records)[x]
      {
        transferringConns := transferringConns + [listed[i]];
        if outcomes[i] && listed[i] in records {
          records := records[listed[i] := Transferring];
        }
      }
    }
  }
}
