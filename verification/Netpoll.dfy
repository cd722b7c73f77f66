/**
 The connection cap: concurrent accepts that take a slot with a compare-and-swap loop,
 and the many ways a slot is given back.
 */
module ConnectionCap {
  import opened Common
  import opened Runs
  import opened Sessions

  type ConnId = nat

  datatype Phase =
    | Loading               // in the CAS loop, about to load the counter
    | Loaded(cur: int)      // about to compare and swap
    | Rejected
    | Reserved              // slot held; descriptor check ahead
    | Created               // client built; netpoll descriptor ahead
    | HasDesc               // registration with the poller ahead
    | Releasing             // failed before the client was shared; releaseSlot ahead
    | Open                  // registered: anyone may call Close
    | StartFailed           // registration failed; slotReleased set, Close ahead
    | Gone                  // slot released on a failure exit

  datatype Conn = Conn(
    phase: Phase,
    slotReleased: bool,     // NewConnection's local flag
    closed: bool,           // the client's closed flag
    decrementing: bool,     // removeClient between winning the flag and its Add(-1)
    releases: nat)          // times this reservation decremented the counter

  datatype State = State(max: int, counter: int, conns: map<ConnId, Conn>)

  datatype Event =
    | Accept(conn: ConnId)
    | Load(conn: ConnId)
    | CompareAndSwap(conn: ConnId)
    | CheckFd(conn: ConnId, ok: bool)
    | MakeDesc(conn: ConnId, ok: bool)
    | StartPoll(conn: ConnId, ok: bool)
    | ReleaseSlot(conn: ConnId)
    | Close(conn: ConnId)
    | Decrement(conn: ConnId)

  function Init(max: int): State { State(max, 0, map[]) }

  predicate At(s: State, a: ConnId, p: Phase) { a in s.conns && s.conns[a].phase == p }

  function Put(s: State, a: ConnId, c: Conn): State { s.(conns := s.conns[a := c]) }

  function Go(s: State, a: ConnId, p: Phase): State
    requires a in s.conns
  {
    Put(s, a, s.conns[a].(phase := p))
  }

  function Step(s: State, e: Event): State {
    match e
    case Accept(a) =>
      if a in s.conns then s
      else if s.max <= 0 then Put(s, a, Conn(Reserved, false, false, false, 0)).(counter := s.counter + 1)
      else Put(s, a, Conn(Loading, false, false, false, 0))
    case Load(a) =>
      if !At(s, a, Loading) then s
      else if s.counter >= s.max then Go(s, a, Rejected)
      else Go(s, a, Loaded(s.counter))
    case CompareAndSwap(a) =>
      if a !in s.conns || !s.conns[a].phase.Loaded? then s
      else
        var cur := s.conns[a].phase.cur;
        if s.counter == cur then Go(s, a, Reserved).(counter := cur + 1) else Go(s, a, Loading)
    case CheckFd(a, ok) =>
      if !At(s, a, Reserved) then s else Go(s, a, if ok then Created else Releasing)
    case MakeDesc(a, ok) =>
      if !At(s, a, Created) then s else Go(s, a, if ok then HasDesc else Releasing)
    case StartPoll(a, ok) =>
      if !At(s, a, HasDesc) then s
      else if ok then Go(s, a, Open)
      else Put(s, a, s.conns[a].(phase := StartFailed, slotReleased := true))
    case ReleaseSlot(a) =>
      if !At(s, a, Releasing) then s
      else
        var c := s.conns[a];
        if c.slotReleased then Go(s, a, Gone)
        else Put(s, a, c.(phase := Gone, slotReleased := true, releases := c.releases + 1)).(counter := s.counter - 1)
    case Close(a) =>
      if (At(s, a, Open) || At(s, a, StartFailed)) && !s.conns[a].closed then
        Put(s, a, s.conns[a].(closed := true, decrementing := true))
      else s
    case Decrement(a) =>
      if a !in s.conns || !s.conns[a].decrementing then s
      else
        var c := s.conns[a];
        Put(s, a, c.(decrementing := false, releases := c.releases + 1)).(counter := s.counter - 1)
  }

  ghost function After(max: int, es: seq<Event>): State { Exec(Step, Init(max), es) }

  /** A slot was reserved for the connection. */
  predicate Admitted(c: Conn) {
    !(c.phase.Loading? || c.phase.Loaded? || c.phase.Rejected?)
  }

  /** The reservation has ended: on a failure exit, or by a completed Close. */
  predicate Ended(c: Conn) {
    c.phase == Gone || (c.closed && !c.decrementing)
  }

  ghost function Held(s: State): set<ConnId> {
    set a | a in s.conns && Admitted(s.conns[a]) && !Ended(s.conns[a])
  }

  predicate Tidy(max: int, c: Conn) {
    && c.releases == (if Ended(c) then 1 else 0)
    && (c.closed || c.decrementing || c.slotReleased ==> Admitted(c))
    && (c.closed ==> c.phase == Open || c.phase == StartFailed)
    && (c.decrementing ==> c.closed)
    && (c.slotReleased <==> c.phase == StartFailed || c.phase == Gone)
    && (c.phase.Loaded? ==> 0 <= c.phase.cur < max)
  }

  ghost predicate Inv(s: State) {
    && (forall a | a in s.conns :: Tidy(s.max, s.conns[a]))
    && s.counter == |Held(s)|
    && (s.max > 0 ==> s.counter <= s.max)
  }

  predicate Holds(s: State, a: ConnId) {
    a in s.conns && Admitted(s.conns[a]) && !Ended(s.conns[a])
  }

  /** Only connection `a` differs, and the counter moves with its slot. */
  ghost predicate Moves(s: State, s': State, a: ConnId) {
    && a in s'.conns && Tidy(s.max, s'.conns[a])
    && s' == s.(conns := s.conns[a := s'.conns[a]], counter := s'.counter)
    && s'.counter == s.counter + (if Holds(s', a) then 1 else 0) - (if Holds(s, a) then 1 else 0)
    && (s.max > 0 && s'.counter > s.counter ==> s'.counter <= s.max)
  }

  lemma OneConnection(s: State, e: Event)
    requires Inv(s)
    ensures Step(s, e) == s || Moves(s, Step(s, e), e.conn)
  {
    var a := e.conn;
    assert a in s.conns ==> Tidy(s.max, s.conns[a]);
  }

  lemma MovesKeep(s: State, s': State, a: ConnId)
    requires Inv(s) && Moves(s, s', a)
    ensures Inv(s')
  {
    assert Held(s') == if Holds(s', a) then Held(s) + {a} else Held(s) - {a};
  }

  lemma StepKeeps(s: State, e: Event)
    requires Inv(s)
    ensures Inv(Step(s, e)) && Step(s, e).max == s.max
  {
    OneConnection(s, e);
    if Step(s, e) != s {
      MovesKeep(s, Step(s, e), e.conn);
    }
  }

  lemma InvAfter(max: int, es: seq<Event>)
    ensures Inv(After(max, es)) && After(max, es).max == max
  {
    var inv := (s: State) => Inv(s) && s.max == max;
    forall s, e | inv(s) ensures inv(Step(s, e)) { StepKeeps(s, e); }
    assert Held(Init(max)) == {};
    Invariant(Step, inv, Init(max), es);
  }

  /**
   The cap is exact: for any number of concurrent accepts and closes, the counter is the
   number of slots held, and a positive cap is never exceeded, not even for an instant.
   */
  lemma CapIsExact(max: int, es: seq<Event>)
    ensures var s := After(max, es);
      s.counter == |Held(s)| && (max > 0 ==> s.counter <= max)
  {
    InvAfter(max, es);
  }

  /** Whichever exit or Close ends it, a reservation is released exactly once, and no sooner. */
  lemma ReleasedExactlyOnce(max: int, es: seq<Event>, a: ConnId)
    requires a in After(max, es).conns
    ensures After(max, es).conns[a].releases == if Ended(After(max, es).conns[a]) then 1 else 0
  {
    InvAfter(max, es);
  }

  /** An accept is turned away exactly when every slot is held at the moment it looks. */
  lemma RejectedExactlyWhenFull(max: int, es: seq<Event>, a: ConnId)
    requires max > 0 && At(After(max, es), a, Loading)
    ensures At(Step(After(max, es), Load(a)), a, Rejected) <==> |Held(After(max, es))| == max
  {
    InvAfter(max, es);
  }

  /** After any run, an accept that nobody interferes with gets in exactly if there is a slot left, or no cap. */
  lemma AcceptGetsInExactly(max: int, es: seq<Event>, a: ConnId)
    requires a !in After(max, es).conns
    ensures var s := After(max, es);
      var t := After(max, es + [Accept(a), Load(a), CompareAndSwap(a)]);
      && (At(t, a, Reserved) <==> max <= 0 || |Held(s)| < max) && (At(t, a, Rejected) <==> 0 < max <= |Held(s)|)
      && t.counter == s.counter + (if At(t, a, Reserved) then 1 else 0)
  {
    InvAfter(max, es);
    Concat(Step, Init(max), es, [Accept(a), Load(a), CompareAndSwap(a)]);
    ExecThree(Step, After(max, es), Accept(a), Load(a), CompareAndSwap(a));
  }

  /** A compare-and-swap that finds another value changes nothing but sends the accept back to its load. */
  lemma LostRaceTriesAgain(s: State, a: ConnId)
    requires a in s.conns && s.conns[a].phase.Loaded? && s.conns[a].phase.cur != s.counter
    ensures var t := Step(s, CompareAndSwap(a)); t.counter == s.counter && At(t, a, Loading)
  {
  }

  /** From a reserved slot, whichever step fails, the slot is free again when the failure exit is through. */
  lemma FailureExitsFreeTheSlot(max: int, es: seq<Event>, a: ConnId)
    requires At(After(max, es), a, Reserved)
    ensures var s := After(max, es);
      var noFd := After(max, es + [CheckFd(a, false)] + [ReleaseSlot(a)]);
      var noDesc := After(max, es + [CheckFd(a, true), MakeDesc(a, false), ReleaseSlot(a)]);
      At(noFd, a, Gone) && noFd.counter == s.counter - 1 && At(noDesc, a, Gone) && noDesc.counter == s.counter - 1
  {
    InvAfter(max, es);
    var s := After(max, es);
    assert Tidy(s.max, s.conns[a]);
    Snoc(Step, Init(max), es, CheckFd(a, false));
    Snoc(Step, Init(max), es + [CheckFd(a, false)], ReleaseSlot(a));
    Concat(Step, Init(max), es, [CheckFd(a, true), MakeDesc(a, false), ReleaseSlot(a)]);
    ExecThree(Step, s, CheckFd(a, true), MakeDesc(a, false), ReleaseSlot(a));
  }

  /** And a connection that gets through is open, holding its slot until it is closed. */
  lemma OpensAndCloses(max: int, es: seq<Event>, a: ConnId)
    requires At(After(max, es), a, Reserved)
    ensures var s := After(max, es);
      var t := After(max, es + [CheckFd(a, true), MakeDesc(a, true), StartPoll(a, true)]);
      var u := Step(Step(t, Close(a)), Decrement(a));
      At(t, a, Open) && t.counter == s.counter && u.counter == s.counter - 1 && Step(u, Close(a)) == u
  {
    InvAfter(max, es);
    var s := After(max, es);
    assert Tidy(s.max, s.conns[a]);
    Concat(Step, Init(max), es, [CheckFd(a, true), MakeDesc(a, true), StartPoll(a, true)]);
    ExecThree(Step, s, CheckFd(a, true), MakeDesc(a, true), StartPoll(a, true));
  }

  /** A connection whose registration with the poller fails is closed like any other. */
  lemma StartFailureIsClosed(max: int, es: seq<Event>, a: ConnId)
    requires At(After(max, es), a, Reserved)
    ensures var s := After(max, es);
      var t := After(max, es + [CheckFd(a, true), MakeDesc(a, true), StartPoll(a, false)]);
      var u := Step(Step(t, Close(a)), Decrement(a));
      At(t, a, StartFailed) && t.counter == s.counter && u.counter == s.counter - 1 && Step(u, ReleaseSlot(a)) == u
  {
    InvAfter(max, es);
    var s := After(max, es);
    assert Tidy(s.max, s.conns[a]);
    Concat(Step, Init(max), es, [CheckFd(a, true), MakeDesc(a, true), StartPoll(a, false)]);
    ExecThree(Step, s, CheckFd(a, true), MakeDesc(a, true), StartPoll(a, false));
  }

  /** How an attempt to register a connection fails, if it does. */
  datatype Fault = NoFault | Unhealthy | NilConnection | NoFd | NoDesc | StartFails

  class Client {
    const auth: Session
    var closed: bool
    var desc: Option<nat>
    var socketOpen: bool

    constructor (auth: Session)
      ensures this.auth == auth && !closed && desc == None && socketOpen
    {
      this.auth := auth;
      closed, desc, socketOpen := false, None, true;
    }
  }

  class NetpollServer {
    var connections: int
    var rejected: nat
    var accepted: nat
    var closedCount: nat
    var polled: set<nat>         // descriptors the poller watches
    var onClose: seq<Session>    // calls of the close callback

    constructor ()
      ensures connections == 0 && rejected == accepted == closedCount == 0 && polled == {} && onClose == []
    {
      connections, rejected, accepted, closedCount, polled, onClose := 0, 0, 0, 0, {}, [];
    }

    /**
     The CAS loop. `interference[i]` is the value other goroutines leave in the counter
     between the i-th load and the i-th swap; after it is used up nobody interferes.
     `before` is what the counter held when the call decided.
     */
    method ReserveSlot(maxConns: int, interference: seq<int>) returns (observed: int, ok: bool, ghost before: int)
      modifies this`connections
      ensures before == old(connections) || before in interference
      ensures ok <==> maxConns <= 0 || before < maxConns
      ensures connections == observed == if ok then before + 1 else before
      ensures interference == [] || maxConns <= 0 ==> before == old(connections)
    {
      before := connections;
      if maxConns <= 0 {
        connections := connections + 1;
        return connections, true, before;
      }
      var i := 0;
      while true
        invariant 0 <= i <= |interference|
        invariant connections == if i == 0 then old(connections) else interference[i - 1]
        decreases |interference| - i
      {
        var cur := connections;
        before := cur;
        if cur >= maxConns {
          return cur, false, before;
        }
        if i < |interference| {
          connections := interference[i];
          i := i + 1;
        }
        if connections == cur {
          connections := cur + 1;
          return cur + 1, true, before;
        }
      }
    }

    /**
     Registers one connection with nobody else around: the slot is kept, the descriptor
     watched and a client returned exactly on success. A failed registration with the
     poller runs the close callback; no other failure does.
     */
    method NewConnection(maxConns: int, fault: Fault, auth: Session, desc: nat) returns (client: Client?)
      requires desc !in polled
      modifies this
      ensures client != null <==> fault == NoFault && (maxConns <= 0 || old(connections) < maxConns)
      ensures client != null ==> fresh(client) && client.auth == auth && !client.closed && client.desc == Some(desc)
      ensures connections == old(connections) + (if client != null then 1 else 0)
      ensures polled == if client != null then old(polled) + {desc} else old(polled)
      ensures rejected == old(rejected) +
        (if !fault.Unhealthy? && !fault.NilConnection? && 0 < maxConns <= old(connections) then 1 else 0)
      ensures accepted - old(accepted) == closedCount - old(closedCount) + (if client != null then 1 else 0)
      ensures onClose == old(onClose) +
        (if fault == StartFails && (maxConns <= 0 || old(connections) < maxConns) then [auth] else [])
    {
      if fault == Unhealthy || fault == NilConnection {
        return null;
      }
      var _, reserved, _ := ReserveSlot(maxConns, []);
      if !reserved {
        rejected := rejected + 1;
        return null;
      }
      if fault == NoFd {
        connections := connections - 1;
        return null;
      }
      accepted := accepted + 1;
      client := new Client(auth);
      if fault == NoDesc {
        client.socketOpen := false;
        connections := connections - 1;
        closedCount := closedCount + 1;
        return null;
      }
      client.desc := Some(desc);
      if fault == StartFails {
        RemoveClient(client);
        return null;
      }
      polled := polled + {desc};
    }

    /**
     Tears a client down, once: the first call gives the slot back, takes the descriptor
     away from the poller, closes the socket and runs the callback; any other does nothing.
     */
    method RemoveClient(client: Client)
      modifies this, client
      ensures client.closed
      ensures old(client.closed) ==> unchanged(this) && unchanged(client)
      ensures !old(client.closed) ==>
        && connections == old(connections) - 1 && closedCount == old(closedCount) + 1
        && client.desc == None && !client.socketOpen
        && polled == (if old(client.desc).Some? then old(polled) - {old(client.desc).value} else old(polled))
        && onClose == old(onClose) + [client.auth]
      ensures rejected == old(rejected) && accepted == old(accepted)
    {
      if client.closed {
        return;
      }
      client.closed := true;
      closedCount := closedCount + 1;
      connections := connections - 1;
      var desc := client.desc;
      client.desc := None;
      if desc.Some? {
        polled := polled - {desc.value};
      }
      client.socketOpen := false;
      onClose := onClose + [client.auth];
    }
  }
}

/**
 Reads of one connection under a one-shot descriptor: the right to read is a token that
 the poller, the worker pool and the resuming goroutine hand to each other while Close
 tears the descriptor down.
 */
module ReadToken {
  import opened Runs

  /** removeClient: not begun; flag won; descriptor taken from the client; stopped; closed. */
  datatype Teardown = NotBegun | Won | Took | Stopped | Finished

  datatype State = State(
    armed: bool,        // the poller will report the next read event
    callbacks: nat,     // poller callbacks that saw data, about to Submit
    hangups: nat,       // poller callbacks that saw the peer go, about to Close
    queued: nat,        // tasks in the pool's queue
    reading: nat,       // workers in processClientMessage
    resuming: nat,      // goroutines about to enter resumeRead
    holder: bool,       // a goroutine in resumeRead, past its checks, holding descMu
    descField: bool,    // client.desc is not nil
    closed: bool,       // the client's closed flag
    teardown: Teardown,
    spent: nat,         // tokens given up because the connection is closing
    lost: nat)          // tokens dropped by a panicking handler or a failed Resume

  datatype Event =
    | Fire(hangup: bool)
    | Dispatch(accepted: bool)
    | StartRead
    | FinishRead
    | PanicRead
    | CheckResume
    | Resume(ok: bool)
    | Close
    | CloseOnHangup
    | TakeDesc
    | StopDesc
    | CloseDesc

  const INIT := State(true, 0, 0, 0, 0, 0, false, true, false, NotBegun, 0, 0)

  /** The compare-and-swap of removeClient: the first caller goes on to tear down. */
  function WinFlag(s: State): State {
    if s.closed then s else s.(closed := true, teardown := Won)
  }

  function Step(s: State, e: Event): State {
    match e
    case Fire(hangup) =>
      if !s.armed then s
      else if hangup then s.(armed := false, hangups := s.hangups + 1)
      else s.(armed := false, callbacks := s.callbacks + 1)
    case Dispatch(accepted) =>
      if s.callbacks == 0 then s
      else if accepted then s.(callbacks := s.callbacks - 1, queued := s.queued + 1)
      else s.(callbacks := s.callbacks - 1, resuming := s.resuming + 1)
    case StartRead =>
      if s.queued == 0 then s else s.(queued := s.queued - 1, reading := s.reading + 1)
    case FinishRead =>
      if s.reading == 0 then s else s.(reading := s.reading - 1, resuming := s.resuming + 1)
    case PanicRead =>
      if s.reading == 0 then s else s.(reading := s.reading - 1, lost := s.lost + 1)
    case CheckResume =>
      if s.resuming == 0 || s.holder then s
      else if s.closed || !s.descField then s.(resuming := s.resuming - 1, spent := s.spent + 1)
      else s.(resuming := s.resuming - 1, holder := true)
    case Resume(ok) =>
      if !s.holder then s
      else
        var t := s.(holder := false);
        if ok then t.(armed := true) else t.(lost := s.lost + 1)
    case Close =>
      WinFlag(s)
    case CloseOnHangup =>
      if s.hangups == 0 then s else WinFlag(s.(hangups := s.hangups - 1, spent := s.spent + 1))
    case TakeDesc =>
      // waits for descMu
      if s.teardown != Won || s.holder then s else s.(descField := false, teardown := Took)
    case StopDesc =>
      if s.teardown != Took then s
      else if s.armed then s.(teardown := Stopped, armed := false, spent := s.spent + 1)
      else s.(teardown := Stopped)
    case CloseDesc =>
      if s.teardown != Stopped then s else s.(teardown := Finished)
  }

  ghost function After(es: seq<Event>): State { Exec(Step, INIT, es) }

  /** The places a token can be, added up. */
  function Tokens(s: State): nat {
    (if s.armed then 1 else 0) + s.callbacks + s.hangups + s.queued + s.reading + s.resuming + (if s.holder then 1 else 0)
  }

  ghost predicate Inv(s: State) {
    && Tokens(s) + s.spent + s.lost == 1
    && (s.spent > 0 ==> s.closed)
    && (s.closed <==> s.teardown != NotBegun)
    && (s.descField <==> s.teardown in {NotBegun, Won})
    && (s.holder ==> s.descField)
    && (s.armed ==> s.teardown !in {Stopped, Finished})
  }

  lemma StepKeeps(s: State, e: Event)
    requires Inv(s)
    ensures Inv(Step(s, e)) && Step(s, e).lost >= s.lost
  {
  }

  lemma InvAfter(es: seq<Event>)
    ensures Inv(After(es))
  {
    forall s, e | Inv(s) ensures Inv(Step(s, e)) { StepKeeps(s, e); }
    Invariant(Step, Inv, INIT, es);
  }

  /**
   An open connection has exactly one token in every reachable state, or has lost it to a
   panicking handler or a failed Resume; at most one goroutine is ever reading.
   */
  lemma OneToken(es: seq<Event>)
    ensures var s := After(es);
      && (!s.closed ==> Tokens(s) + s.lost == 1)
      && s.reading + s.queued + s.callbacks <= 1
  {
    InvAfter(es);
  }

  /** The event: Resume is called on a descriptor that was stopped or closed. */
  predicate ResumesStopped(s: State, e: Event) { e.Resume? && s.holder && s.teardown in {Stopped, Finished} }

  /** Resume never meets a stopped or closed descriptor, however Close interleaves with it. */
  lemma NeverResumesStoppedDescriptor(es: seq<Event>)
    ensures !Ever(Step, INIT, es, ResumesStopped)
  {
    forall s, e | Inv(s) ensures Inv(Step(s, e)) { StepKeeps(s, e); }
    Never(Step, Inv, INIT, es, ResumesStopped);
  }

  // ----- How a token is lost -----

  /** A handler panics while it reads, or a Resume fails. */
  predicate Faults(s: State, e: Event) {
    (e == PanicRead && s.reading > 0) || (e == Resume(false) && s.holder)
  }

  ghost predicate FaultIn(es: seq<Event>) { Ever(Step, INIT, es, Faults) }

  /** A token is lost exactly by a panicking handler or a failed Resume. */
  lemma LostExactlyByFault(es: seq<Event>)
    ensures After(es).lost > 0 <==> FaultIn(es)
  {
    var lost := (s: State) => s.lost > 0;
    ExactlyAfter(Step, INIT, es, Faults, lost);
  }

  /** A lost token is lost for good: after a fault, whatever follows, the connection is never read again. */
  lemma LostTokenNeverReturns(es: seq<Event>, fs: seq<Event>)
    requires FaultIn(es)
    ensures var s := After(es + fs); Tokens(s) == 0 && s.reading == 0 && !s.armed
  {
    LostExactlyByFault(es);
    InvAfter(es);
    Concat(Step, INIT, es, fs);
    StaysLost(After(es), fs);
  }

  lemma StaysLost(s: State, fs: seq<Event>)
    requires Inv(s) && s.lost > 0
    ensures var t := Exec(Step, s, fs); Inv(t) && t.lost > 0
  {
    var gone := (t: State) => Inv(t) && t.lost > 0;
    forall t, e | gone(t) ensures gone(Step(t, e)) { StepKeeps(t, e); }
    Invariant(Step, gone, s, fs);
  }

  /** It happens: the handler of the first read panics, and the connection is open and deaf. */
  lemma PanicLosesTheToken()
    ensures var es := [Fire(false), Dispatch(true), StartRead, PanicRead];
      After(es).lost == 1 && !After(es).closed && FaultIn(es)
  {
    Exec4(Step, INIT, Fire(false), Dispatch(true), StartRead, PanicRead);
    LostExactlyByFault([Fire(false), Dispatch(true), StartRead, PanicRead]);
  }

  // ----- Nothing else stalls -----

  /** How many moves the token is away from the poller; a hang-up's one move closes. */
  function Distance(s: State): nat {
    if s.armed then 0
    else s.hangups + (if s.holder then 1 else 0) + 2 * s.resuming + 3 * s.reading + 4 * s.queued + 5 * s.callbacks
  }

  /** Open, and waiting for its token to come back to the poller. */
  predicate Pending(s: State) { !s.closed && !s.armed }

  lemma EveryMoveHelps(s: State, e: Event)
    requires Inv(s) && s.lost == 0 && Pending(s) && !Faults(s, e)
    ensures var t := Step(s, e); Inv(t) && t.lost == 0 && (t == s || t.closed || Distance(t) < Distance(s))
  {
  }

  /** The move that is open to the token, using no room in the pool's queue. */
  function Next(s: State): Event {
    if s.hangups > 0 then CloseOnHangup
    else if s.holder then Resume(true)
    else if s.resuming > 0 then CheckResume
    else if s.reading > 0 then FinishRead
    else if s.queued > 0 then StartRead
    else Dispatch(false)
  }

  ghost predicate HasMove(s: State) {
    var t := Step(s, Next(s));
    Next(s) != Dispatch(true) && t.lost == s.lost && (t.closed || Distance(t) < Distance(s))
  }

  lemma PendingHasMove(s: State)
    requires Inv(s) && s.lost == 0 && Pending(s)
    ensures HasMove(s) && 0 < Distance(s) <= 5
  {
  }

  /** How many events of a run change the state. */
  ghost function Changes(s: State, fs: seq<Event>): nat {
    if fs == [] then 0
    else
      var front := fs[..|fs| - 1];
      Changes(s, front) + (if Exec(Step, s, fs) == Exec(Step, s, front) then 0 else 1)
  }

  ghost predicate AllPending(s: State, fs: seq<Event>) {
    forall i | 0 <= i <= |fs| :: Pending(Exec(Step, s, fs[..i]))
  }

  lemma {:induction false} DistanceFalls(s: State, fs: seq<Event>)
    requires Inv(s) && s.lost == 0 && !Ever(Step, s, fs, Faults) && AllPending(s, fs)
    ensures var t := Exec(Step, s, fs); Inv(t) && t.lost == 0 && Pending(t) && Changes(s, fs) + Distance(t) <= Distance(s)
    ensures Pending(s)
  {
    assert fs[..|fs|] == fs && Pending(Exec(Step, s, fs[..0]));
    if fs == [] {
    } else {
      var front, e := fs[..|fs| - 1], fs[|fs| - 1];
      EverSnoc(Step, s, front, e, Faults);
      assert front + [e] == fs;
      assert forall i | 0 <= i <= |front| :: front[..i] == fs[..i];
      DistanceFalls(s, front);
      EveryMoveHelps(Exec(Step, s, front), e);
    }
  }

  /**
   No stall, on any schedule: after any run without a fault an open connection that is not
   armed always has a move of its own, even if the pool accepts nothing more; and whatever
   is scheduled, fewer than five events can take effect before it is armed or closing.
   */
  lemma NeverStalls(es: seq<Event>, fs: seq<Event>)
    requires !FaultIn(es) && !Ever(Step, After(es), fs, Faults) && AllPending(After(es), fs)
    ensures Changes(After(es), fs) < 5 && HasMove(Exec(Step, After(es), fs))
  {
    InvAfter(es);
    LostExactlyByFault(es);
    DistanceFalls(After(es), fs);
    PendingHasMove(After(es));
    PendingHasMove(Exec(Step, After(es), fs));
  }

  // ----- What a read cycle does -----

  /** From every reachable armed state, an event that the pool accepts is read once, and the descriptor armed again. */
  lemma ReadCycle(es: seq<Event>)
    requires After(es).armed && !After(es).closed
    ensures var s := After(es);
      var reading := After(es + [Fire(false), Dispatch(true), StartRead]);
      var t := After(es + [Fire(false), Dispatch(true), StartRead] + [FinishRead, CheckResume, Resume(true)]);
      && reading.reading == 1 && !reading.armed && t == s
  {
    InvAfter(es);
    var s := After(es);
    Concat(Step, INIT, es, [Fire(false), Dispatch(true), StartRead]);
    ExecThree(Step, s, Fire(false), Dispatch(true), StartRead);
    Concat(Step, INIT, es + [Fire(false), Dispatch(true), StartRead], [FinishRead, CheckResume, Resume(true)]);
    ExecThree(Step, After(es + [Fire(false), Dispatch(true), StartRead]), FinishRead, CheckResume, Resume(true));
    ToReading(s);
    BackFromReading(s);
  }

  lemma ToReading(s: State)
    requires Inv(s) && s.armed
    ensures Step(Step(Step(s, Fire(false)), Dispatch(true)), StartRead) == s.(armed := false, reading := 1)
  {
  }

  lemma BackFromReading(s: State)
    requires Inv(s) && s.armed && !s.closed
    ensures Step(Step(Step(s.(armed := false, reading := 1), FinishRead), CheckResume), Resume(true)) == s
  {
  }

  /** One that the pool refuses is not queued: the descriptor is armed again without a read. */
  lemma RefusedCycle(es: seq<Event>)
    requires After(es).armed && !After(es).closed
    ensures var s := After(es);
      var refused := After(es + [Fire(false)] + [Dispatch(false)]);
      && refused.queued == 0 && refused.resuming == 1
      && After(es + [Fire(false)] + [Dispatch(false)] + [CheckResume] + [Resume(true)]) == s
  {
    InvAfter(es);
    Snoc(Step, INIT, es, Fire(false));
    Snoc(Step, INIT, es + [Fire(false)], Dispatch(false));
    Snoc(Step, INIT, es + [Fire(false)] + [Dispatch(false)], CheckResume);
    Snoc(Step, INIT, es + [Fire(false)] + [Dispatch(false)] + [CheckResume], Resume(true));
  }

  /** A hang-up closes the connection, and a close tears the descriptor down in three steps. */
  lemma HangupTearsDown(es: seq<Event>)
    requires After(es).armed && !After(es).closed
    ensures var t := After(es + [Fire(true)] + [CloseOnHangup] + [TakeDesc, StopDesc, CloseDesc]);
      t.closed && !t.armed && !t.descField && t.teardown == Finished && Tokens(t) == 0
  {
    InvAfter(es);
    InvAfter(es + [Fire(true)] + [CloseOnHangup]);
    Snoc(Step, INIT, es, Fire(true));
    Snoc(Step, INIT, es + [Fire(true)], CloseOnHangup);
    Concat(Step, INIT, es + [Fire(true)] + [CloseOnHangup], [TakeDesc, StopDesc, CloseDesc]);
    ExecThree(Step, After(es + [Fire(true)] + [CloseOnHangup]), TakeDesc, StopDesc, CloseDesc);
    HangupCloses(After(es));
    TearsDown(After(es + [Fire(true)] + [CloseOnHangup]));
  }

  lemma HangupCloses(s: State)
    requires Inv(s) && s.armed && !s.closed
    ensures Step(Step(s, Fire(true)), CloseOnHangup) == s.(armed := false, spent := 1, closed := true, teardown := Won)
  {
  }

  lemma TearsDown(s: State)
    requires Inv(s) && s.teardown == Won && !s.holder && !s.armed
    ensures Step(Step(Step(s, TakeDesc), StopDesc), CloseDesc) == s.(descField := false, teardown := Finished)
  {
  }

  /** A close of an armed connection disarms it; a resume that finds it closed gives its token up. */
  lemma CloseDisarms(es: seq<Event>)
    requires !After(es).closed
    ensures var s := After(es);
      var t := After(es + [Close]);
      && t == s.(closed := true, teardown := Won)
      && (t.resuming > 0 && !t.holder ==>
            Step(t, CheckResume) == t.(resuming := t.resuming - 1, spent := t.spent + 1))
      && (t.armed ==>
            Step(Step(t, TakeDesc), StopDesc) ==
              t.(descField := false, teardown := Stopped, armed := false, spent := t.spent + 1))
  {
    InvAfter(es);
    Snoc(Step, INIT, es, Close);
  }
}
