/**
 Draining buffered messages into a new connection while senders race for it.

 One connection: the new-connection callback takes the drain lock, registers the
 connection, consumes the buffer and writes it out directly; senders find the connection
 in the manager and write under the read lock; the frame handler replies without a lock.
 */
module Drain {
  import opened Common
  import opened Runs

  type Sender = nat

  type Message = seq<int>

  datatype DrainPhase =
    | Before             // BeginDrain not reached
    | Refused            // the store rejected the connection: never registered
    | Locked             // between BeginDrain and AddConnection
    | Registered         // in the manager, buffer not consumed yet
    | Draining(next: nat)
    | Done               // after EndDrain

  /** A sender that has the connection: before, between and after its read-locked write. */
  datatype SendPhase = Holding | Reading | Written

  datatype Sending = Sending(message: Message, phase: SendPhase)

  /** What reached the socket, and by which way. */
  datatype Entry = Direct(index: nat, message: Message) | Live(sender: Sender, message: Message) | Reply(message: Message)

  datatype State = State(
    phase: DrainPhase,
    writer: bool,             // drainMu held exclusively
    readers: set<Sender>,     // drainMu held shared
    registered: bool,         // the manager's entry is this connection
    senders: map<Sender, Sending>,
    pending: seq<Message>,    // what Consume returned
    results: seq<bool>,       // outcome of each SendDirect so far
    log: seq<Entry>)

  datatype Event =
    | Refuse
    | BeginDrain
    | AddConnection
    | Consume(messages: seq<Message>)
    | SendDirect(ok: bool)
    | EndDrain
    | GetConnection(sender: Sender, message: Message)
    | RLock(sender: Sender)
    | Send(sender: Sender, ok: bool)
    | RUnlock(sender: Sender)
    | FrameReply(message: Message)
    | Unregister

  const INIT := State(Before, false, {}, false, map[], [], [], [])

  predicate Has(s: State, sender: Sender, phase: SendPhase) {
    sender in s.senders && s.senders[sender].phase == phase
  }

  function Move(s: State, sender: Sender, phase: SendPhase): State
    requires sender in s.senders
  {
    s.(senders := s.senders[sender := s.senders[sender].(phase := phase)])
  }

  function Step(s: State, e: Event): State {
    match e
    case Refuse =>
      if s.phase == Before then s.(phase := Refused) else s
    case BeginDrain =>
      if s.phase == Before && !s.writer && s.readers == {} then s.(phase := Locked, writer := true) else s
    case AddConnection =>
      if s.phase == Locked then s.(phase := Registered, registered := true) else s
    case Consume(messages) =>
      if s.phase == Registered then s.(phase := Draining(0), pending := messages) else s
    case SendDirect(ok) =>
      if s.phase.Draining? && s.phase.next < |s.pending| then
        var i := s.phase.next;
        s.(phase := Draining(i + 1), results := s.results + [ok],
           log := if ok then s.log + [Direct(i, s.pending[i])] else s.log)
      else s
    case EndDrain =>
      if s.phase == Draining(|s.pending|) then s.(phase := Done, writer := false) else s
    case GetConnection(x, message) =>
      if s.registered && x !in s.senders then s.(senders := s.senders[x := Sending(message, Holding)]) else s
    case RLock(x) =>
      if Has(s, x, Holding) && !s.writer then Move(s, x, Reading).(readers := s.readers + {x}) else s
    case Send(x, ok) =>
      if Has(s, x, Reading) then
        Move(s, x, Written).(log := if ok then s.log + [Live(x, s.senders[x].message)] else s.log)
      else s
    case RUnlock(x) =>
      if Has(s, x, Written) then s.(senders := s.senders - {x}, readers := s.readers - {x}) else s
    case FrameReply(message) =>
      s.(log := s.log + [Reply(message)])
    case Unregister =>
      s.(registered := false)
  }

  ghost function After(es: seq<Event>): State { Exec(Step, INIT, es) }

  /** The log without the frame handler's replies. */
  function Sent(log: seq<Entry>): seq<Entry> {
    if log == [] then []
    else if log[|log| - 1].Reply? then Sent(log[..|log| - 1])
    else Sent(log[..|log| - 1]) + [log[|log| - 1]]
  }

  /** The buffered messages whose direct write succeeded, in buffer order. */
  function Drained(pending: seq<Message>, results: seq<bool>): seq<Entry>
    requires |results| <= |pending|
  {
    if results == [] then []
    else
      var i := |results| - 1;
      if results[i] then Drained(pending, results[..i]) + [Direct(i, pending[i])] else Drained(pending, results[..i])
  }

  class DrainableConnection {
    var writer: bool
    var readers: set<Sender>
    var log: seq<Entry>

    /**
     The callback's path from BeginDrain to EndDrain with nobody else at the socket:
     `outcomes` says which writes succeed. The lock is free again at the end, and what was
     written is the part of the buffer whose write succeeded, in buffer order.
     */
    method DeliverPending(messages: seq<Message>, outcomes: seq<bool>)
      requires !writer && readers == {}
      requires |outcomes| == |messages|
      modifies this
      ensures !writer && readers == {}
      ensures log == old(log) + Drained(messages, outcomes)
    {
      writer := true;
      for i := 0 to |messages|
        invariant writer && readers == {}
        invariant log == old(log) + Drained(messages, outcomes[..i])
      {
        if outcomes[i] {
          log := log + [Direct(i, messages[i])];
        }
        DrainedSnoc(messages, outcomes[..i], outcomes[i]);
        assert outcomes[..i] + [outcomes[i]] == outcomes[..i + 1];
      }
      assert outcomes[..|messages|] == outcomes;
      writer := false;
    }
  }

  lemma SentSnoc(log: seq<Entry>, e: Entry)
    ensures Sent(log + [e]) == if e.Reply? then Sent(log) else Sent(log) + [e]
  {
  }

  lemma DrainedSnoc(pending: seq<Message>, results: seq<bool>, ok: bool)
    requires |results| < |pending|
    ensures Drained(pending, results + [ok]) ==
      if ok then Drained(pending, results) + [Direct(|results|, pending[|results|])] else Drained(pending, results)
  {
    assert (results + [ok])[..|results|] == results;
  }

  /** Everything delivered is first the drained messages and then live ones. */
  ghost predicate Ordered(s: State) {
    && |s.results| <= |s.pending|
    && var sent, drained := Sent(s.log), Drained(s.pending, s.results);
      && |drained| <= |sent|
      && sent[..|drained|] == drained
      && (forall i | |drained| <= i < |sent| :: sent[i].Live?)
      && (|drained| < |sent| ==> s.phase == Done && |s.results| == |s.pending|)
  }

  ghost predicate Locking(s: State) {
    && (s.phase.Before? || s.phase.Refused? ==> !s.registered && s.senders == map[])
    && (s.writer <==> s.phase.Locked? || s.phase.Registered? || s.phase.Draining?)
    && (forall x :: x in s.readers <==> Has(s, x, Reading) || Has(s, x, Written))
    && (s.readers != {} ==> s.phase == Done)
    && (forall x | x in s.senders && s.phase != Done :: s.senders[x].phase == Holding)
    && (match s.phase
        case Draining(i) => i == |s.results| <= |s.pending|
        case Done => |s.results| == |s.pending|
        case _ => s.results == [] && s.pending == [])
  }

  ghost predicate Inv(s: State) { Locking(s) && Ordered(s) }

  lemma LockingKept(s: State, e: Event)
    requires Locking(s)
    ensures Locking(Step(s, e))
  {
    if e.BeginDrain? {
      assert forall x :: x !in s.senders || s.phase != Before;
    }
  }

  lemma OrderedKept(s: State, e: Event)
    requires Inv(s)
    ensures Ordered(Step(s, e))
  {
    var s' := Step(s, e);
    if e.SendDirect? && s' != s {
      DrainedSnoc(s.pending, s.results, e.ok);
      assert Sent(s.log) == Drained(s.pending, s.results);
      SentSnoc(s.log, Direct(s.phase.next, s.pending[s.phase.next]));
    } else if e.Send? && s' != s {
      assert e.sender in s.readers;
      SentSnoc(s.log, Live(e.sender, s.senders[e.sender].message));
    } else if e.FrameReply? {
      SentSnoc(s.log, Reply(e.message));
    }
  }

  lemma InvAfter(es: seq<Event>)
    ensures Inv(After(es))
  {
    forall s, e | Inv(s) ensures Inv(Step(s, e)) {
      LockingKept(s, e);
      OrderedKept(s, e);
    }
    Invariant(Step, Inv, INIT, es);
  }

  /**
   Drain order: in every interleaving, what the drainer and the senders deliver is first
   the buffered messages whose write succeeded, in buffer order, then the messages passed
   to Send; nothing passed to Send is delivered before every buffered message was tried.
   */
  lemma BufferedBeforeLive(es: seq<Event>)
    ensures Ordered(After(es))
  {
    InvAfter(es);
  }

  /** With no failed direct write, a live message means the whole buffer is out, in order. */
  lemma LiveMeansFullyDrained(es: seq<Event>, i: nat)
    requires var s := After(es);
      i < |Sent(s.log)| && Sent(s.log)[i].Live? && forall k | 0 <= k < |s.results| :: s.results[k]
    ensures var s := After(es);
      |s.pending| <= i && forall k | 0 <= k < |s.pending| :: Sent(s.log)[k] == Direct(k, s.pending[k])
  {
    InvAfter(es);
    var s := After(es);
    AllDrained(s.pending, s.results);
    var drained := Drained(s.pending, s.results);
    forall k | 0 <= k < |drained| ensures Sent(s.log)[k] == Direct(k, s.pending[k]) {
      assert Sent(s.log)[k] == Sent(s.log)[..|drained|][k];
    }
  }

  lemma {:induction false} AllDrained(pending: seq<Message>, results: seq<bool>)
    requires |results| <= |pending| && forall k | 0 <= k < |results| :: results[k]
    ensures |Drained(pending, results)| == |results|
    ensures forall k | 0 <= k < |results| :: Drained(pending, results)[k] == Direct(k, pending[k])
  {
    if results == [] {
    } else {
      AllDrained(pending, results[..|results| - 1]);
    }
  }

  /** The drainer never waits for the lock, and once it is done every sender gets through. */
  lemma NobodyIsStuck(es: seq<Event>, x: Sender)
    ensures var s := After(es);
      && (s.phase == Before ==> Step(s, BeginDrain).phase == Locked)
      && (s.phase == Done && Has(s, x, Holding) ==>
            Step(Step(s, RLock(x)), Send(x, true)).log == s.log + [Live(x, s.senders[x].message)])
  {
    InvAfter(es);
    var s := After(es);
    if s.phase == Before {
      assert s.readers == {};
    }
  }

  /** Replies of the frame handler are outside the order: one may precede the buffer. */
  lemma ReplyMayComeFirst(m: Message, r: Message)
    ensures After([BeginDrain, AddConnection, Consume([m]), FrameReply(r)]).log == [Reply(r)]
    ensures After([BeginDrain, AddConnection, Consume([m]), FrameReply(r)]).results == []
  {
    Exec4(Step, INIT, BeginDrain, AddConnection, Consume([m]), FrameReply(r));
  }

  // ----- What a drain does -----

  /** The event: the callback consumes these messages. */
  function Consumes(ms: seq<Message>): (State, Event) -> bool {
    (s: State, e: Event) => e == Consume(ms) && s.phase == Registered
  }

  /** In every run, what is drained is what Consume returned: past it, the buffer is exactly the one consumed. */
  lemma PendingIsConsumed(es: seq<Event>, ms: seq<Message>)
    ensures var s := After(es);
      (s.phase.Draining? || s.phase == Done) && s.pending == ms <==> Ever(Step, INIT, es, Consumes(ms))
  {
    var q := (s: State) => (s.phase.Draining? || s.phase == Done) && s.pending == ms;
    ExactlyAfter(Step, INIT, es, Consumes(ms), q);
  }

  /** From a connection's beginning, the lock is taken and the connection registered without waiting. */
  lemma DrainBegins(es: seq<Event>)
    requires After(es).phase == Before
    ensures var t := After(es + [BeginDrain] + [AddConnection]);
      t.phase == Registered && t.writer && t.registered && t.log == After(es).log
  {
    InvAfter(es);
    assert After(es).readers == {};
    Snoc(Step, INIT, es, BeginDrain);
    Snoc(Step, INIT, es + [BeginDrain], AddConnection);
  }

  /** A connection the store refuses is never registered. */
  lemma RefusedIsNeverRegistered(es: seq<Event>, fs: seq<Event>)
    requires After(es).phase == Before
    ensures var t := After(es + [Refuse] + fs); t.phase == Refused && !t.registered && t.senders == map[]
  {
    InvAfter(es);
    Snoc(Step, INIT, es, Refuse);
    Concat(Step, INIT, es + [Refuse], fs);
    StaysRefused(After(es + [Refuse]), fs);
  }

  lemma StaysRefused(s: State, fs: seq<Event>)
    requires s.phase == Refused && !s.registered && s.senders == map[]
    ensures var t := Exec(Step, s, fs); t.phase == Refused && !t.registered && t.senders == map[]
  {
    var refused := (s: State) => s.phase == Refused && !s.registered && s.senders == map[];
    Invariant(Step, refused, s, fs);
  }

  function WriteAll(n: nat): seq<Event> { seq(n, _ => SendDirect(true)) }

  function Directs(ms: seq<Message>, n: nat): seq<Entry>
    requires n <= |ms|
  {
    seq(n, i requires 0 <= i < n => Direct(i, ms[i]))
  }

  lemma DirectsSnoc(ms: seq<Message>, n: nat)
    requires n < |ms|
    ensures Directs(ms, n + 1) == Directs(ms, n) + [Direct(n, ms[n])]
  {
  }

  lemma {:induction false} WritesAll(s: State, n: nat)
    requires s.phase == Draining(0) && n <= |s.pending|
    ensures var t := Exec(Step, s, WriteAll(n));
      t.phase == Draining(n) && t.pending == s.pending && t.log == s.log + Directs(s.pending, n)
      && t.writer == s.writer && t.senders == s.senders && t.readers == s.readers
  {
    if n == 0 {
      assert s.log + Directs(s.pending, 0) == s.log;
    } else {
      WritesAll(s, n - 1);
      assert WriteAll(n) == WriteAll(n - 1) + [SendDirect(true)];
      Snoc(Step, s, WriteAll(n - 1), SendDirect(true));
      DirectsSnoc(s.pending, n - 1);
      Assoc(s.log, Directs(s.pending, n - 1), [Direct(n - 1, s.pending[n - 1])]);
    }
  }

  /**
   From every reachable state in which the connection is registered, consuming any messages,
   writing each of them well and ending the drain puts exactly them on the socket, in order,
   and gives the lock back.
   */
  lemma DrainWritesEverything(es: seq<Event>, ms: seq<Message>)
    requires After(es).phase == Registered
    ensures var t := After(es + [Consume(ms)] + WriteAll(|ms|) + [EndDrain]);
      t.phase == Done && !t.writer && t.log == After(es).log + Directs(ms, |ms|)
  {
    Snoc(Step, INIT, es, Consume(ms));
    var s := After(es + [Consume(ms)]);
    Concat(Step, INIT, es + [Consume(ms)], WriteAll(|ms|));
    WritesAll(s, |ms|);
    Snoc(Step, INIT, es + [Consume(ms)] + WriteAll(|ms|), EndDrain);
  }

  /** A write that fails is passed over: nothing is written and the next message is next. */
  lemma FailedWriteIsSkipped(s: State)
    requires s.phase.Draining? && s.phase.next < |s.pending|
    ensures Step(s, SendDirect(false)) == s.(phase := Draining(s.phase.next + 1), results := s.results + [false])
  {
  }

  /** A sender that finds a drained connection writes its message and leaves no lock behind. */
  lemma SendGoesThrough(es: seq<Event>, x: Sender, m: Message)
    requires var s := After(es); s.phase == Done && s.registered && x !in s.senders
    ensures var s := After(es);
      var t := After(es + [GetConnection(x, m), RLock(x), Send(x, true), RUnlock(x)]);
      t.log == s.log + [Live(x, m)] && t.senders == s.senders && t.readers == s.readers
  {
    InvAfter(es);
    var s := After(es);
    Concat(Step, INIT, es, [GetConnection(x, m), RLock(x), Send(x, true), RUnlock(x)]);
    Exec4(Step, s, GetConnection(x, m), RLock(x), Send(x, true), RUnlock(x));
    assert x !in s.readers && !s.writer;
    var u := Locks(s, x, m);
    Writes(s, u, x, m);
  }

  lemma Locks(s: State, x: Sender, m: Message) returns (u: State)
    requires s.registered && !s.writer && x !in s.senders
    ensures u == Step(Step(s, GetConnection(x, m)), RLock(x))
    ensures u == s.(senders := s.senders[x := Sending(m, Reading)], readers := s.readers + {x})
  {
    var g := Step(s, GetConnection(x, m));
    assert g.senders == s.senders[x := Sending(m, Holding)];
    u := Step(g, RLock(x));
  }

  lemma Writes(s: State, u: State, x: Sender, m: Message)
    requires x !in s.senders && x !in s.readers
    requires u == s.(senders := s.senders[x := Sending(m, Reading)], readers := s.readers + {x})
    ensures Step(Step(u, Send(x, true)), RUnlock(x)) == s.(log := s.log + [Live(x, m)])
  {
    var w := Step(u, Send(x, true));
    assert w.senders == s.senders[x := Sending(m, Written)] && w.log == s.log + [Live(x, m)];
    assert w.senders - {x} == s.senders && w.readers - {x} == s.readers;
  }

  /** A connection out of the manager is found by nobody. */
  lemma UnregisteredIsNotFound(es: seq<Event>, x: Sender, m: Message)
    ensures var t := After(es + [Unregister]); !t.registered && Step(t, GetConnection(x, m)) == t
  {
    Snoc(Step, INIT, es, Unregister);
  }
}
