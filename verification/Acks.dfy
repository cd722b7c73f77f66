/** Acknowledgement channels of one container. */
module AckManagers {
  import opened Common

  /** Identifiers stand for the code's strings. */
  type AckId = nat

  /** The empty string, which a client may send and no call is given. */
  const NO_ID: AckId := 0

  type ContainerId = nat

  /** A Go channel used only to be closed; closing it a second time panics. */
  class Channel {
    var closed: bool

    constructor ()
      ensures !closed
    {
      closed := false;
    }

    method Close()
      requires !closed
      modifies this
      ensures closed
    {
      closed := true;
    }
  }

  /** Where a client's ack with some ID goes: to a call waiting here, to another container, or nowhere. */
  datatype Destination = Here(ch: Channel) | There(source: ContainerId) | Nowhere

  class AckManager {
    var pending: map<AckId, Channel>
    var remoteAcks: map<AckId, ContainerId>

    /** Every channel on file is open and on file once. */
    ghost predicate Valid()
      reads this, pending.Values
    {
      && (forall id | id in pending :: !pending[id].closed)
      && (forall a, b | a in pending && b in pending && a != b :: pending[a] != pending[b])
    }

    ghost function Goes(id: AckId): Destination
      reads this
    {
      if id in pending then Here(pending[id]) else if id in remoteAcks then There(remoteAcks[id]) else Nowhere
    }

    constructor ()
      ensures Valid() && pending == map[] && remoteAcks == map[]
    {
      pending, remoteAcks := map[], map[];
    }

    /** `id` is a random identifier, taken to be new. */
    method CreateAck(id: AckId) returns (ch: Channel)
      requires Valid() && id !in pending
      modifies this`pending
      ensures Valid() && fresh(ch)
      ensures pending == old(pending)[id := ch]
      ensures forall x :: Goes(x) == if x == id then Here(ch) else old(Goes(x))
    {
      ch := new Channel();
      pending := pending[id := ch];
    }

    /** The locked half of ResolveAck: takes the channel off the file. */
    method Take(id: AckId) returns (ch: Channel?)
      requires Valid()
      modifies this`pending
      ensures Valid()
      ensures pending == old(pending) - {id}
      ensures ch == if id in old(pending) then old(pending)[id] else null
      ensures ch != null ==> !ch.closed && ch !in pending.Values
    {
      ch := null;
      if id in pending {
        ch := pending[id];
      }
      pending := pending - {id};
    }

    method ResolveAck(id: AckId) returns (ok: bool)
      requires Valid()
      modifies this`pending, if id in pending then {pending[id]} else {}
      ensures Valid()
      ensures ok == (id in old(pending)) && pending == old(pending) - {id}
      ensures ok ==> old(pending[id]).closed
    {
      var ch := Take(id);
      ok := ch != null;
      if ok {
        ch.Close();
      }
    }

    /**
     Waits for the channel to be closed or the timer to fire; `timer` says which case the
     select takes. A wait that timed out leaves the channel open, and its ID to whoever it
     was registered for: no later ack finds the call.
     */
    method WaitForAck(id: AckId, ch: Channel, timer: bool) returns (acked: bool)
      requires Valid() && (ch.closed || timer)
      modifies this`pending
      ensures Valid() && acked == !timer && (acked ==> ch.closed)
      ensures forall x :: Goes(x) == if timer && x == id && old(Goes(x)).Here? then Elsewhere(x) else old(Goes(x))
    {
      if !timer {
        return true;
      }
      pending := pending - {id};
      return false;
    }

    /** Where an ack goes that no call waits for here. */
    ghost function Elsewhere(id: AckId): Destination
      reads this
    {
      if id in remoteAcks then There(remoteAcks[id]) else Nowhere
    }

    /** From now on an ack with this ID goes to `source`, unless a call waits for it here; no other ack is diverted. */
    method RegisterRemoteAck(id: AckId, source: ContainerId)
      requires Valid()
      modifies this`remoteAcks
      ensures Valid()
      ensures forall x :: Goes(x) == if x == id && !old(Goes(x)).Here? then There(source) else old(Goes(x))
      ensures Elsewhere(id) == There(source)
    {
      remoteAcks := remoteAcks[id := source];
    }

    /**
     The ack branch of the message handler: the ack is used once, where it goes. A call
     waiting here is released, or the ack is published to the container it came from.
     */
    method HandleAck(id: AckId) returns (publish: Option<ContainerId>)
      requires Valid()
      modifies this, if id in pending then {pending[id]} else {}
      ensures Valid()
      ensures id == NO_ID ==> publish == None && forall x :: Goes(x) == old(Goes(x))
      ensures id != NO_ID ==>
        && (old(Goes(id)).Here? ==> old(Goes(id)).ch.closed && Goes(id) == old(Elsewhere(id)))
        && (!old(Goes(id)).Here? ==> Goes(id) == Nowhere)
        && publish == (if old(Goes(id)).There? then Some(old(Goes(id)).source) else None)
      ensures forall x | x != id :: Goes(x) == old(Goes(x))
    {
      publish := None;
      if id == NO_ID {
        return;
      }
      var local := ResolveAck(id);
      if local {
        return;
      }
      var source, ok := ResolveRemoteAck(id);
      if ok {
        publish := Some(source);
      }
    }

    method ResolveRemoteAck(id: AckId) returns (source: ContainerId, ok: bool)
      requires Valid()
      modifies this`remoteAcks
      ensures Valid()
      ensures ok == (id in old(remoteAcks)) && (ok ==> source == old(remoteAcks)[id])
      ensures remoteAcks == old(remoteAcks) - {id}
    {
      source, ok := 0, id in remoteAcks;
      if ok {
        source := remoteAcks[id];
      }
      remoteAcks := remoteAcks - {id};
    }

    /** Closes every pending channel once and forgets both tables. */
    method Shutdown()
      requires Valid()
      modifies this, pending.Values
      ensures Valid() && pending == map[] && remoteAcks == map[]
      ensures forall id | id in old(pending) :: old(pending)[id].closed
    {
      while pending != map[]
        invariant Valid()
        invariant forall id | id in pending :: id in old(pending) && pending[id] == old(pending)[id]
        invariant forall id | id in old(pending) && id !in pending :: old(pending)[id].closed
        decreases |pending|
      {
        var id :| id in pending;
        pending[id].Close();
        pending := pending - {id};
      }
      remoteAcks := map[];
    }
  }
}

/**
 Acknowledgements between containers. Calls wait on a channel of their own container;
 acks come from clients of any container and travel over a bus that may lose, repeat
 and reorder what is published.
 */
module AckRouting {
  import opened Runs
  import opened AckManagers

  type Chan = nat

  /** An entry of one container's table. */
  datatype Slot = Slot(at: ContainerId, id: AckId)

  datatype CallPhase = Sending | Waiting | TimingOut | Returned(acked: bool)

  datatype Call = Call(owner: ContainerId, chan: Chan, phase: CallPhase)

  datatype BusMessage =
    | SendWithAck(target: ContainerId, id: AckId, source: ContainerId)
    | AckResolved(target: ContainerId, id: AckId)

  datatype State = State(
    calls: map<AckId, Call>,
    created: seq<AckId>,          // channel i was made for created[i]
    pending: map<Slot, Chan>,
    remote: map<Slot, ContainerId>,
    bus: set<BusMessage>,         // everything ever published
    routing: multiset<Slot>,      // client acks between their local and their remote lookup
    closing: multiset<Chan>,      // taken off the file, about to be closed
    closed: set<Chan>,
    clientAcked: set<AckId>,      // IDs of the ack frames handled anywhere
    released: set<AckId>)         // calls whose channel a shutdown of their container closed

  datatype Event =
    | CreateAck(at: ContainerId, id: AckId)
    | SendLocally(id: AckId)
    | Publish(id: AckId, target: ContainerId)
    | StartWaiting(id: AckId)
    | GiveUp(id: AckId)
    | DeliverSend(target: ContainerId, id: AckId, source: ContainerId)
    | ClientAck(at: ContainerId, id: AckId)
    | RouteAck(at: ContainerId, id: AckId)
    | DeliverAck(target: ContainerId, id: AckId)
    | Close(chan: Chan)
    | WakeUp(id: AckId)
    | TimerFires(id: AckId)
    | Forget(id: AckId)
    | Shutdown(at: ContainerId)

  const INIT := State(map[], [], map[], map[], {}, multiset{}, multiset{}, {}, {}, {})

  predicate In(s: State, id: AckId, phase: CallPhase) {
    id in s.calls && s.calls[id].phase == phase
  }

  function Move(s: State, id: AckId, phase: CallPhase): State
    requires id in s.calls
  {
    s.(calls := s.calls[id := s.calls[id].(phase := phase)])
  }

  /** The locked half of ResolveAck at one container. */
  function Take(s: State, slot: Slot): State {
    if slot in s.pending then s.(pending := s.pending - {slot}, closing := s.closing + multiset{s.pending[slot]})
    else s
  }

  function Create(s: State, c: ContainerId, id: AckId): State {
    if id in s.calls || id == NO_ID then s  // identifiers are never empty and never drawn twice
    else
      s.(calls := s.calls[id := Call(c, |s.created|, Sending)], created := s.created + [id],
         pending := s.pending[Slot(c, id) := |s.created|])
  }

  /** The sender's own container registers the ack as if it came from elsewhere. */
  function SendHere(s: State, id: AckId): State {
    if !In(s, id, Sending) then s
    else s.(remote := s.remote[Slot(s.calls[id].owner, id) := s.calls[id].owner])
  }

  function SendThere(s: State, id: AckId, target: ContainerId): State {
    if !In(s, id, Sending) then s else s.(bus := s.bus + {SendWithAck(target, id, s.calls[id].owner)})
  }

  function Advance(s: State, id: AckId, from: CallPhase, to: CallPhase): State {
    if In(s, id, from) then Move(s, id, to) else s
  }

  function Abandon(s: State, id: AckId): State {
    if !In(s, id, Sending) then s else Take(Move(s, id, Returned(false)), Slot(s.calls[id].owner, id))
  }

  function RegisterRemote(s: State, target: ContainerId, id: AckId, source: ContainerId): State {
    if SendWithAck(target, id, source) !in s.bus then s else s.(remote := s.remote[Slot(target, id) := source])
  }

  /** The ack branch of the message handler, up to a failed local lookup. */
  function HandleAck(s: State, c: ContainerId, id: AckId): State {
    if id == NO_ID then s
    else
      var t := s.(clientAcked := s.clientAcked + {id});
      if Slot(c, id) in s.pending then Take(t, Slot(c, id)) else t.(routing := s.routing + multiset{Slot(c, id)})
  }

  function Forward(s: State, c: ContainerId, id: AckId): State {
    if Slot(c, id) !in s.routing then s
    else
      var t := s.(routing := s.routing - multiset{Slot(c, id)});
      if Slot(c, id) in s.remote then
        t.(remote := s.remote - {Slot(c, id)}, bus := s.bus + {AckResolved(s.remote[Slot(c, id)], id)})
      else t
  }

  function Resolve(s: State, target: ContainerId, id: AckId): State {
    if AckResolved(target, id) !in s.bus then s else Take(s, Slot(target, id))
  }

  function CloseChan(s: State, ch: Chan): State {
    if ch !in s.closing then s
    else s.(closing := s.closing - multiset{ch}, closed := s.closed + {ch})
  }

  function Wake(s: State, id: AckId): State {
    if In(s, id, Waiting) && s.calls[id].chan in s.closed then Move(s, id, Returned(true)) else s
  }

  function TimeOut(s: State, id: AckId): State {
    if In(s, id, TimingOut) then
      Move(s, id, Returned(false)).(pending := s.pending - {Slot(s.calls[id].owner, id)})
    else s
  }

  function Stop(s: State, c: ContainerId): State {
    var chans := set slot | slot in s.pending && slot.at == c :: s.pending[slot];
    s.(pending := map slot | slot in s.pending && slot.at != c :: s.pending[slot],
       remote := map slot | slot in s.remote && slot.at != c :: s.remote[slot],
       closed := s.closed + chans,
       released := s.released + set slot | slot in s.pending && slot.at == c :: slot.id)
  }

  function Step(s: State, e: Event): State {
    match e
    case CreateAck(c, id) => Create(s, c, id)
    case SendLocally(id) => SendHere(s, id)
    case Publish(id, target) => SendThere(s, id, target)
    case StartWaiting(id) => Advance(s, id, Sending, Waiting)
    case GiveUp(id) => Abandon(s, id)
    case DeliverSend(target, id, source) => RegisterRemote(s, target, id, source)
    case ClientAck(c, id) => HandleAck(s, c, id)
    case RouteAck(c, id) => Forward(s, c, id)
    case DeliverAck(target, id) => Resolve(s, target, id)
    case Close(ch) => CloseChan(s, ch)
    case WakeUp(id) => Wake(s, id)
    case TimerFires(id) => Advance(s, id, Waiting, TimingOut)
    case Forget(id) => TimeOut(s, id)
    case Shutdown(c) => Stop(s, c)
  }

  ghost function After(es: seq<Event>): State { Exec(Step, INIT, es) }

  // ----- A channel is a linear resource -----

  ghost predicate Channels(s: State) {
    && (forall id | id in s.calls :: id != NO_ID && s.calls[id].chan < |s.created| && s.created[s.calls[id].chan] == id)
    && (forall ch | ch in s.closed || ch in s.closing :: ch < |s.created|)
  }

  /** On file, about to be closed, closed: a channel is in at most one place, once. */
  ghost predicate OnePlace(s: State) {
    && (forall slot | slot in s.pending ::
          && slot.id in s.calls && s.calls[slot.id].owner == slot.at && s.calls[slot.id].chan == s.pending[slot]
          && s.pending[slot] !in s.closed && s.pending[slot] !in s.closing)
    && (forall ch | ch in s.closing :: s.closing[ch] == 1 && ch !in s.closed)
  }

  ghost predicate Linear(s: State) { Channels(s) && OnePlace(s) }

  // ----- Acks are not made up -----

  ghost predicate Genuine(s: State) {
    && (forall m | m in s.bus && m.AckResolved? :: m.id in s.clientAcked)
    && (forall m | m in s.bus && m.SendWithAck? :: m.id in s.calls && s.calls[m.id].owner == m.source)
    && (forall slot | slot in s.routing :: slot.id in s.clientAcked)
    && (forall slot | slot in s.remote :: slot.id in s.calls && s.calls[slot.id].owner == s.remote[slot])
  }

  /** Why the channel of a call is no longer open and on file. */
  ghost predicate Explained(s: State, id: AckId)
    requires id in s.calls
  {
    id in s.clientAcked || id in s.released || s.calls[id].phase == Returned(false)
  }

  ghost predicate ClosedForAReason(s: State) {
    forall id | id in s.calls ::
      (s.calls[id].chan in s.closed || s.calls[id].chan in s.closing || s.calls[id].phase == Returned(true)) ==> Explained(s, id)
  }

  /** A call that waits has its channel on file, closing, or closed. */
  ghost predicate WaitersReachable(s: State) {
    forall id | id in s.calls && s.calls[id].phase in {Sending, Waiting, TimingOut} ::
      Slot(s.calls[id].owner, id) in s.pending || s.calls[id].chan in s.closed || s.calls[id].chan in s.closing
  }

  ghost predicate Inv(s: State) {
    Linear(s) && Genuine(s) && ClosedForAReason(s) && WaitersReachable(s)
  }

  lemma CreateKeepsLinear(s: State, c: ContainerId, id: AckId)
    requires Inv(s)
    ensures Linear(Create(s, c, id))
  {
  }

  lemma CreateKeeps(s: State, c: ContainerId, id: AckId)
    requires Inv(s)
    ensures Genuine(Create(s, c, id)) && ClosedForAReason(Create(s, c, id)) && WaitersReachable(Create(s, c, id))
  {
  }

  /** A step that only routes keeps everything else about channels and calls. */
  lemma RoutingKeeps(s: State, t: State)
    requires Inv(s) && Genuine(t) && t == s.(remote := t.remote, bus := t.bus, routing := t.routing)
    ensures Inv(t)
  {
  }

  lemma SendHereKeeps(s: State, id: AckId)
    requires Inv(s)
    ensures Inv(SendHere(s, id))
  {
    RoutingKeeps(s, SendHere(s, id));
  }

  lemma SendThereKeeps(s: State, id: AckId, target: ContainerId)
    requires Inv(s)
    ensures Inv(SendThere(s, id, target))
  {
    RoutingKeeps(s, SendThere(s, id, target));
  }

  lemma RegisterRemoteKeeps(s: State, target: ContainerId, id: AckId, source: ContainerId)
    requires Inv(s)
    ensures Inv(RegisterRemote(s, target, id, source))
  {
    RoutingKeeps(s, RegisterRemote(s, target, id, source));
  }

  lemma ForwardKeepsGenuine(s: State, c: ContainerId, id: AckId)
    requires Genuine(s)
    ensures Genuine(Forward(s, c, id))
  {
  }

  lemma ForwardKeeps(s: State, c: ContainerId, id: AckId)
    requires Inv(s)
    ensures Inv(Forward(s, c, id))
  {
    ForwardKeepsGenuine(s, c, id);
    RoutingKeeps(s, Forward(s, c, id));
  }

  lemma MoveKeepsLinear(s: State, id: AckId, to: CallPhase)
    requires Linear(s) && id in s.calls
    ensures Linear(Move(s, id, to))
  {
  }

  lemma MoveKeepsGenuine(s: State, id: AckId, to: CallPhase)
    requires Genuine(s) && id in s.calls
    ensures Genuine(Move(s, id, to))
  {
  }

  lemma MoveKeepsReasons(s: State, id: AckId, to: CallPhase)
    requires ClosedForAReason(s) && WaitersReachable(s) && id in s.calls && !s.calls[id].phase.Returned?
    requires to == Returned(true) ==> s.calls[id].chan in s.closed
    ensures ClosedForAReason(Move(s, id, to)) && WaitersReachable(Move(s, id, to))
  {
  }

  /** A call that has not returned goes on to another phase, and returns true only on a closed channel. */
  lemma MoveKeeps(s: State, id: AckId, to: CallPhase)
    requires Inv(s) && id in s.calls && !s.calls[id].phase.Returned?
    requires to == Returned(true) ==> s.calls[id].chan in s.closed
    ensures Inv(Move(s, id, to))
  {
    MoveKeepsLinear(s, id, to);
    MoveKeepsGenuine(s, id, to);
    MoveKeepsReasons(s, id, to);
  }

  lemma AdvanceKeeps(s: State, id: AckId, from: CallPhase, to: CallPhase)
    requires Inv(s) && !from.Returned? && to != Returned(true)
    ensures Inv(Advance(s, id, from, to))
  {
    if In(s, id, from) {
      MoveKeeps(s, id, to);
    }
  }

  lemma WakeKeeps(s: State, id: AckId)
    requires Inv(s)
    ensures Inv(Wake(s, id))
  {
    if In(s, id, Waiting) && s.calls[id].chan in s.closed {
      MoveKeeps(s, id, Returned(true));
    }
  }

  lemma DropKeeps(s: State, slot: Slot)
    requires Inv(s) && slot.id in s.calls && s.calls[slot.id].phase.Returned?
    ensures Inv(s.(pending := s.pending - {slot}))
  {
  }

  lemma TimeOutKeeps(s: State, id: AckId)
    requires Inv(s)
    ensures Inv(TimeOut(s, id))
  {
    if In(s, id, TimingOut) {
      MoveKeeps(s, id, Returned(false));
      DropKeeps(Move(s, id, Returned(false)), Slot(s.calls[id].owner, id));
    }
  }

  lemma TakeKeepsLinear(s: State, slot: Slot)
    requires Linear(s)
    ensures Linear(Take(s, slot))
  {
  }

  lemma TakeKeepsReasons(s: State, slot: Slot)
    requires Linear(s) && ClosedForAReason(s) && WaitersReachable(s) && (slot in s.pending ==> Explained(s, slot.id))
    ensures ClosedForAReason(Take(s, slot)) && WaitersReachable(Take(s, slot))
  {
  }

  lemma TakeKeeps(s: State, slot: Slot)
    requires Inv(s) && (slot in s.pending ==> Explained(s, slot.id))
    ensures Inv(Take(s, slot))
  {
    TakeKeepsLinear(s, slot);
    TakeKeepsReasons(s, slot);
  }

  lemma AbandonKeeps(s: State, id: AckId)
    requires Inv(s)
    ensures Inv(Abandon(s, id))
  {
    if In(s, id, Sending) {
      MoveKeeps(s, id, Returned(false));
      TakeKeeps(Move(s, id, Returned(false)), Slot(s.calls[id].owner, id));
    }
  }

  lemma HandleAckKeeps(s: State, c: ContainerId, id: AckId)
    requires Inv(s)
    ensures Inv(HandleAck(s, c, id))
  {
    TakeKeeps(s.(clientAcked := s.clientAcked + {id}), Slot(c, id));
  }

  lemma ResolveKeeps(s: State, c: ContainerId, id: AckId)
    requires Inv(s)
    ensures Inv(Resolve(s, c, id))
  {
    if AckResolved(c, id) in s.bus {
      TakeKeeps(s, Slot(c, id));
    }
  }

  lemma CloseKeeps(s: State, ch: Chan)
    requires Inv(s)
    ensures Inv(CloseChan(s, ch))
  {
  }

  lemma StopKeeps(s: State, c: ContainerId)
    requires Inv(s)
    ensures Inv(Stop(s, c))
  {
  }

  lemma StepKeeps(s: State, e: Event)
    requires Inv(s)
    ensures Inv(Step(s, e))
  {
    match e
    case CreateAck(c, id) => CreateKeepsLinear(s, c, id); CreateKeeps(s, c, id);
    case SendLocally(id) => SendHereKeeps(s, id);
    case Publish(id, target) => SendThereKeeps(s, id, target);
    case StartWaiting(id) => AdvanceKeeps(s, id, Sending, Waiting);
    case GiveUp(id) => AbandonKeeps(s, id);
    case DeliverSend(target, id, source) => RegisterRemoteKeeps(s, target, id, source);
    case ClientAck(c, id) => HandleAckKeeps(s, c, id);
    case RouteAck(c, id) => ForwardKeeps(s, c, id);
    case DeliverAck(target, id) => ResolveKeeps(s, target, id);
    case Close(ch) => CloseKeeps(s, ch);
    case WakeUp(id) => WakeKeeps(s, id);
    case TimerFires(id) => AdvanceKeeps(s, id, Waiting, TimingOut);
    case Forget(id) => TimeOutKeeps(s, id);
    case Shutdown(c) => StopKeeps(s, c);
  }

  lemma InvAfter(es: seq<Event>)
    ensures Inv(After(es))
  {
    forall s, e | Inv(s) ensures Inv(Step(s, e)) { StepKeeps(s, e); }
    Invariant(Step, Inv, INIT, es);
  }

  /** The event: a channel is closed that is closed already, or twice by one shutdown. */
  ghost predicate ClosesAgain(s: State, e: Event) {
    match e
    case Close(ch) => ch in s.closing && ch in s.closed
    case Shutdown(c) =>
      || (exists a | a in s.pending :: a.at == c && s.pending[a] in s.closed)
      || (exists a, b | a in s.pending && b in s.pending :: a.at == c == b.at && a != b && s.pending[a] == s.pending[b])
    case _ => false
  }

  lemma NeverAgain(s: State, e: Event)
    requires Linear(s)
    ensures !ClosesAgain(s, e)
  {
  }

  /**
   No ack channel is closed twice, however resolution by clients and by the bus, timeouts,
   abandoned calls and shutdowns of any containers interleave.
   */
  lemma NoChannelIsClosedTwice(es: seq<Event>)
    ensures !Ever(Step, INIT, es, ClosesAgain)
  {
    forall s, e | Inv(s) ensures Inv(Step(s, e)) && !ClosesAgain(s, e) {
      StepKeeps(s, e);
      NeverAgain(s, e);
    }
    Never(Step, Inv, INIT, es, ClosesAgain);
  }

  /** The event: some container handles a client's ack frame with this ID. */
  function Acks(id: AckId): (State, Event) -> bool {
    (s: State, e: Event) => e.ClientAck? && e.id == id && id != NO_ID
  }

  /** The event: the call's container is shut down with the call on file. */
  function Releases(id: AckId): (State, Event) -> bool {
    (s: State, e: Event) => e.Shutdown? && Slot(e.at, id) in s.pending
  }

  lemma OnlyClientsAck(s: State, e: Event, id: AckId)
    ensures id in Step(s, e).clientAcked <==> id in s.clientAcked || Acks(id)(s, e)
  {
  }

  lemma OnlyShutdownReleases(s: State, e: Event, id: AckId)
    ensures id in Step(s, e).released <==> id in s.released || Releases(id)(s, e)
  {
  }

  lemma AckedExactlyByClient(es: seq<Event>, id: AckId)
    ensures id in After(es).clientAcked <==> Ever(Step, INIT, es, Acks(id))
  {
    var q := (s: State) => id in s.clientAcked;
    forall s, e ensures q(Step(s, e)) <==> q(s) || Acks(id)(s, e) { OnlyClientsAck(s, e, id); }
    ExactlyAfter(Step, INIT, es, Acks(id), q);
  }

  lemma ReleasedExactlyByShutdown(es: seq<Event>, id: AckId)
    ensures id in After(es).released <==> Ever(Step, INIT, es, Releases(id))
  {
    var q := (s: State) => id in s.released;
    forall s, e ensures q(Step(s, e)) <==> q(s) || Releases(id)(s, e) { OnlyShutdownReleases(s, e, id); }
    ExactlyAfter(Step, INIT, es, Releases(id), q);
  }

  /**
   A call reports an ack only if some container handled a client's ack frame with that
   very ID, or its own container was shut down while the call was on file.
   */
  lemma AckedMeansAClientAcked(es: seq<Event>, id: AckId)
    requires In(After(es), id, Returned(true))
    ensures Ever(Step, INIT, es, Acks(id)) || Ever(Step, INIT, es, Releases(id))
  {
    InvAfter(es);
    AckedExactlyByClient(es, id);
    ReleasedExactlyByShutdown(es, id);
  }

  /** The exception is real: shutting down releases waiters as if they had been acked. */
  lemma ShutdownLooksLikeAnAck(c: ContainerId, id: AckId)
    requires id != NO_ID
    ensures var s := After([CreateAck(c, id), StartWaiting(id), Shutdown(c), WakeUp(id)]);
      In(s, id, Returned(true)) && id !in s.clientAcked
  {
    Exec4(Step, INIT, CreateAck(c, id), StartWaiting(id), Shutdown(c), WakeUp(id));
    var s2 := Step(Step(INIT, CreateAck(c, id)), StartWaiting(id));
    assert Slot(c, id) in s2.pending && s2.pending[Slot(c, id)] == 0;
  }

  // ----- Acks get through -----

  /** The events that carry a client's ack at container `c` as far as the closing of the call's channel. */
  function ToClosing(s: State, c: ContainerId, id: AckId): seq<Event>
    requires id in s.calls
  {
    if Slot(s.calls[id].owner, id) !in s.pending then []
    else if Slot(c, id) in s.pending then [ClientAck(c, id)]
    else [ClientAck(c, id), RouteAck(c, id), DeliverAck(s.calls[id].owner, id)]
  }

  /** And from there to the caller; a channel that is closed already needs no closing. */
  function Route(s: State, c: ContainerId, id: AckId): seq<Event>
    requires id in s.calls
  {
    ToClosing(s, c, id) + [Close(s.calls[id].chan)] + [WakeUp(id)]
  }

  /** A channel about to be closed wakes its caller. */
  lemma CloseWakes(s: State, id: AckId)
    requires In(s, id, Waiting) && (s.calls[id].chan in s.closing || s.calls[id].chan in s.closed)
    ensures In(Step(Step(s, Close(s.calls[id].chan)), WakeUp(id)), id, Returned(true))
  {
  }

  /** The first client ack takes the waiting call's channel off the file, here ... */
  lemma LocalAckTakes(s: State, c: ContainerId, id: AckId)
    requires OnePlace(s) && id != NO_ID && Slot(c, id) in s.pending
    ensures var t := Step(s, ClientAck(c, id)); t.calls == s.calls && s.calls[id].chan in t.closing
  {
  }

  /** ... or, by way of the bus, at the call's own container. */
  lemma RemoteAckTakes(s: State, c: ContainerId, id: AckId)
    requires Inv(s) && id != NO_ID && id in s.calls && Slot(c, id) !in s.pending
    requires Slot(s.calls[id].owner, id) in s.pending && Slot(c, id) in s.remote
    ensures var t := Step(Step(Step(s, ClientAck(c, id)), RouteAck(c, id)), DeliverAck(s.calls[id].owner, id));
      t.calls == s.calls && s.calls[id].chan in t.closing
  {
    var owner := s.calls[id].owner;
    var s1 := Step(s, ClientAck(c, id));
    assert Slot(c, id) in s1.routing && s1.remote == s.remote && s1.pending == s.pending && s1.calls == s.calls;
    var s2 := Step(s1, RouteAck(c, id));
    assert AckResolved(owner, id) in s2.bus && s2.pending == s.pending && s2.calls == s.calls;
  }

  /** Whichever way it goes, the ack finds the channel of a waiting call closing or closed. */
  lemma AckReachesChannel(s: State, c: ContainerId, id: AckId)
    requires Inv(s) && In(s, id, Waiting) && (c == s.calls[id].owner || Slot(c, id) in s.remote)
    ensures var t := Exec(Step, s, ToClosing(s, c, id));
      t.calls == s.calls && (s.calls[id].chan in t.closing || s.calls[id].chan in t.closed)
  {
    var es := ToClosing(s, c, id);
    ExecOneOrThree(Step, s, es);
    if Slot(s.calls[id].owner, id) in s.pending {
      if Slot(c, id) in s.pending {
        LocalAckTakes(s, c, id);
      } else {
        RemoteAckTakes(s, c, id);
      }
    }
  }

  /**
   Whenever a call is waiting, an ack handled where the call lives, or where its message
   was delivered, can still reach it: if the bus delivers, the call returns true.
   */
  lemma AckGetsThrough(es: seq<Event>, c: ContainerId, id: AckId)
    requires var s := After(es); In(s, id, Waiting) && (c == s.calls[id].owner || Slot(c, id) in s.remote)
    ensures In(After(es + Route(After(es), c, id)), id, Returned(true))
  {
    InvAfter(es);
    var s := After(es);
    AckReachesChannel(s, c, id);
    var first, ch := ToClosing(s, c, id), s.calls[id].chan;
    CloseWakes(Exec(Step, s, first), id);
    Snoc(Step, s, first, Close(ch));
    Snoc(Step, s, first + [Close(ch)], WakeUp(id));
    Concat(Step, INIT, es, Route(s, c, id));
  }

  // ----- What each call sets going -----

  /** After any run, a published send that the bus delivers files the caller's container at the target. */
  lemma SendReachesTarget(es: seq<Event>, id: AckId, target: ContainerId)
    requires In(After(es), id, Sending)
    ensures var s := After(es);
      var t := After(es + [Publish(id, target), DeliverSend(target, id, s.calls[id].owner), StartWaiting(id)]);
      && Slot(target, id) in t.remote && t.remote[Slot(target, id)] == s.calls[id].owner
      && In(t, id, Waiting) && t.calls[id].owner == s.calls[id].owner
  {
    var s := After(es);
    var owner := s.calls[id].owner;
    Concat(Step, INIT, es, [Publish(id, target), DeliverSend(target, id, owner), StartWaiting(id)]);
    ExecThree(Step, s, Publish(id, target), DeliverSend(target, id, owner), StartWaiting(id));
    var s1 := Step(s, Publish(id, target));
    assert SendWithAck(target, id, owner) in s1.bus && In(s1, id, Sending);
  }

  /** The whole way there and back: the client acks at the container the send was published to, and the call returns true. */
  lemma AckFromTargetGetsThrough(es: seq<Event>, id: AckId, target: ContainerId)
    requires In(After(es), id, Sending)
    ensures var there := es + [Publish(id, target), DeliverSend(target, id, After(es).calls[id].owner), StartWaiting(id)];
      id in After(there).calls && In(After(there + Route(After(there), target, id)), id, Returned(true))
  {
    SendReachesTarget(es, id, target);
    AckGetsThrough(es + [Publish(id, target), DeliverSend(target, id, After(es).calls[id].owner), StartWaiting(id)], target, id);
  }

  /** A new ID makes a call with an open channel of its own on file, and disturbs nothing. */
  lemma CreateFiles(es: seq<Event>, c: ContainerId, id: AckId)
    requires id != NO_ID && id !in After(es).calls
    ensures var s, t := After(es), After(es + [CreateAck(c, id)]);
      && In(t, id, Sending) && t.calls[id].owner == c && Slot(c, id) in t.pending && t.pending[Slot(c, id)] == t.calls[id].chan
      && t.calls[id].chan !in t.closed && t.calls[id].chan !in t.closing
      && t.pending - {Slot(c, id)} == s.pending - {Slot(c, id)} && t.calls - {id} == s.calls - {id}
  {
    InvAfter(es);
    Snoc(Step, INIT, es, CreateAck(c, id));
  }

  /** A local send files the caller's own container, as if the send had come from it. */
  lemma LocalSendFiles(es: seq<Event>, id: AckId)
    requires In(After(es), id, Sending)
    ensures var s, t := After(es), After(es + [SendLocally(id)]);
      t == s.(remote := s.remote[Slot(s.calls[id].owner, id) := s.calls[id].owner])
  {
    Snoc(Step, INIT, es, SendLocally(id));
  }

  /** A call that times out returns false, and no ack finds it afterwards. */
  lemma TimeoutForgets(es: seq<Event>, id: AckId)
    requires In(After(es), id, Waiting)
    ensures var s, t := After(es), After(es + [TimerFires(id)] + [Forget(id)]);
      In(t, id, Returned(false)) && t.pending == s.pending - {Slot(s.calls[id].owner, id)} && t.closed == s.closed
  {
    Snoc(Step, INIT, es, TimerFires(id));
    Snoc(Step, INIT, es + [TimerFires(id)], Forget(id));
  }

  /** A call that is given up returns false, and its channel is about to be closed, if it was still on file. */
  lemma GivenUpReturnsFalse(es: seq<Event>, id: AckId)
    requires In(After(es), id, Sending)
    ensures var s, t := After(es), After(es + [GiveUp(id)]);
      && In(t, id, Returned(false)) && Slot(s.calls[id].owner, id) !in t.pending
      && (Slot(s.calls[id].owner, id) in s.pending ==> s.calls[id].chan in t.closing)
  {
    InvAfter(es);
    Snoc(Step, INIT, es, GiveUp(id));
  }

  /** A shutdown closes every channel on file at its container and forgets its tables, and no other container's. */
  lemma ShutdownClosesItsOwn(es: seq<Event>, c: ContainerId, slot: Slot)
    ensures var s, t := After(es), After(es + [Shutdown(c)]);
      && (slot in t.pending <==> slot in s.pending && slot.at != c)
      && (slot in t.remote <==> slot in s.remote && slot.at != c)
      && (slot in s.pending && slot.at == c ==> s.pending[slot] in t.closed)
      && t.calls == s.calls && t.bus == s.bus
  {
    Snoc(Step, INIT, es, Shutdown(c));
  }

  /** An ack that nobody waits for here and that came from nowhere is dropped, once. */
  lemma UnknownAckIsDropped(es: seq<Event>, c: ContainerId, id: AckId)
    requires id != NO_ID && Slot(c, id) !in After(es).pending && Slot(c, id) !in After(es).remote
    ensures var s, t := After(es), After(es + [ClientAck(c, id)] + [RouteAck(c, id)]);
      t == s.(clientAcked := s.clientAcked + {id})
  {
    Snoc(Step, INIT, es, ClientAck(c, id));
    Snoc(Step, INIT, es + [ClientAck(c, id)], RouteAck(c, id));
    var s := After(es);
    assert s.routing + multiset{Slot(c, id)} - multiset{Slot(c, id)} == s.routing;
  }

  /** An ack that is routed is used up: the source is given to one ack only. */
  lemma RoutedOnce(es: seq<Event>, c: ContainerId, id: AckId)
    requires id != NO_ID && Slot(c, id) !in After(es).pending && Slot(c, id) in After(es).remote
    ensures var s, t := After(es), After(es + [ClientAck(c, id)] + [RouteAck(c, id)]);
      && t.remote == s.remote - {Slot(c, id)} && t.routing == s.routing
      && t.bus == s.bus + {AckResolved(s.remote[Slot(c, id)], id)}
  {
    Snoc(Step, INIT, es, ClientAck(c, id));
    Snoc(Step, INIT, es + [ClientAck(c, id)], RouteAck(c, id));
    var s := After(es);
    assert s.routing + multiset{Slot(c, id)} - multiset{Slot(c, id)} == s.routing;
  }
}
