/**
 The pending-message table: rows keyed by session and send time, read in ascending order
 and deleted up to the largest time read.
 */
module PendingStore {
  import opened Ascent

  datatype Key = Key(session: string, sendAt: int)

  datatype Row<V> = Row(sendAt: int, value: V)

  /** The key under which both repositories file a session's messages. */
  function SessionKey(userId: string, instanceId: string): string {
    userId + ":" + instanceId
  }

  /** INSERT ... ON CONFLICT (session_key, send_at) DO NOTHING */
  function Insert<V>(rows: map<Key, V>, key: Key, value: V): map<Key, V> {
    if key in rows then rows else rows[key := value]
  }

  /** DELETE ... WHERE session_key = $1 AND send_at <= $2 */
  function WithoutUpTo<V>(rows: map<Key, V>, session: string, max: int): map<Key, V> {
    map k | k in rows && !(k.session == session && k.sendAt <= max) :: rows[k]
  }

  /** Every row of a session, whatever its time. */
  function WithoutSession<V>(rows: map<Key, V>, session: string): map<Key, V> {
    map k | k in rows && k.session != session :: rows[k]
  }

  function Stamps<V>(rows: map<Key, V>, session: string): set<int> {
    set k | k in rows && k.session == session :: k.sendAt
  }

  /** SELECT message, send_at ... WHERE session_key = $1 ORDER BY send_at ASC */
  function Query<V>(rows: map<Key, V>, session: string): (r: seq<Row<V>>)
    ensures forall i | 0 <= i < |r| :: Key(session, r[i].sendAt) in rows && rows[Key(session, r[i].sendAt)] == r[i].value
    ensures forall i, j | 0 <= i < j < |r| :: r[i].sendAt < r[j].sendAt
    ensures forall k | k in rows && k.session == session :: Row(k.sendAt, rows[k]) in r
  {
    var at := Ascending(Stamps(rows, session));
    assert forall i | 0 <= i < |at| :: at[i] in at;
    RowsAt(rows, session, at)
  }

  function RowsAt<V>(rows: map<Key, V>, session: string, at: seq<int>): (r: seq<Row<V>>)
    requires forall i | 0 <= i < |at| :: Key(session, at[i]) in rows
    ensures |r| == |at|
    ensures forall i | 0 <= i < |r| :: r[i] == Row(at[i], rows[Key(session, at[i])])
    ensures forall t | t in at :: Row(t, rows[Key(session, t)]) in r
  {
    if at == [] then [] else [Row(at[0], rows[Key(session, at[0])])] + RowsAt(rows, session, at[1..])
  }

  lemma QueryOne<V>(session: string, at: int, value: V)
    ensures Query(map[Key(session, at) := value], session) == [Row(at, value)]
  {
    var rows := map[Key(session, at) := value];
    var r := Query(rows, session);
    assert Key(session, at) in rows;
    assert Row(at, value) in r;
    forall i | 0 <= i < |r| ensures r[i] == Row(at, value) {
      assert Key(session, r[i].sendAt) in rows;
    }
    assert r[0].sendAt == r[|r| - 1].sendAt;
  }

  function LastStamp<V>(found: seq<Row<V>>): int {
    if found == [] then 0 else found[|found| - 1].sendAt
  }

  /** Rows arrive ascending, so the last time read is the largest. */
  lemma LastIsLargest<V>(rows: map<Key, V>, session: string)
    ensures var r := Query(rows, session);
      forall k | k in rows && k.session == session :: r != [] && k.sendAt <= LastStamp(r)
  {
    var r := Query(rows, session);
    forall k | k in rows && k.session == session ensures r != [] && k.sendAt <= LastStamp(r) {
      var i :| 0 <= i < |r| && r[i] == Row(k.sendAt, rows[k]);
    }
  }

  /** So deleting up to it deletes the session, as it was read. */
  lemma DeletesWhatWasRead<V>(rows: map<Key, V>, session: string)
    ensures var r := Query(rows, session);
      WithoutSession(rows, session) == if r == [] then rows else WithoutUpTo(rows, session, LastStamp(r))
  {
    LastIsLargest(rows, session);
  }

  function Messages<V>(rows: seq<Row<V>>): (r: seq<V>)
    ensures |r| == |rows| && forall i | 0 <= i < |r| :: r[i] == rows[i].value
  {
    seq(|rows|, i requires 0 <= i < |rows| => rows[i].value)
  }

  /** The pairs that share a key: the first pair's user ID swallows part of the other's instance ID. */
  ghost predicate Shifted(u1: string, i1: string, u2: string, i2: string) {
    exists x: string :: u1 == u2 + ":" + x && i2 == x + ":" + i1
  }

  /**
   Two sessions share a table key exactly when they are the same session or one is the
   other with a colon moved; IDs without colons never collide.
   */
  lemma SessionKeysCollide(u1: string, i1: string, u2: string, i2: string)
    ensures SessionKey(u1, i1) == SessionKey(u2, i2) <==>
      (u1 == u2 && i1 == i2) || Shifted(u1, i1, u2, i2) || Shifted(u2, i2, u1, i1)
    ensures ':' !in u1 && ':' !in u2 && SessionKey(u1, i1) == SessionKey(u2, i2) ==> u1 == u2 && i1 == i2
  {
    var a, b := SessionKey(u1, i1), SessionKey(u2, i2);
    if a == b {
      if |u1| == |u2| {
        assert u1 == a[..|u1|] && u2 == b[..|u2|];
        assert i1 == a[|u1| + 1..] && i2 == b[|u2| + 1..];
      } else if |u1| > |u2| {
        ShiftOf(u1, i1, u2, i2);
      } else {
        ShiftOf(u2, i2, u1, i1);
      }
    }
    if Shifted(u1, i1, u2, i2) { ShiftedKeys(u1, i1, u2, i2); }
    if Shifted(u2, i2, u1, i1) { ShiftedKeys(u2, i2, u1, i1); }
  }

  lemma ShiftOf(u1: string, i1: string, u2: string, i2: string)
    requires SessionKey(u1, i1) == SessionKey(u2, i2) && |u1| > |u2|
    ensures Shifted(u1, i1, u2, i2) && ':' in u1
  {
    var a := SessionKey(u1, i1);
    var x := u1[|u2| + 1..];
    assert u1 == a[..|u1|] && u2 == a[..|u2|] && a[|u2|] == ':' == u1[|u2|];
    assert u1 == u2 + ":" + x;
    assert i2 == a[|u2| + 1..] && i1 == a[|u1| + 1..];
    assert i2 == x + ":" + i1;
  }

  lemma ShiftedKeys(u1: string, i1: string, u2: string, i2: string)
    requires Shifted(u1, i1, u2, i2)
    ensures SessionKey(u1, i1) == SessionKey(u2, i2)
  {
  }
}

/** The repository object over the table. */
module PendingRepository {
  import opened Common
  import opened PendingStore

  /** Failures a read of the table can meet: the query, a row, or the end of the stream. */
  datatype ReadFault = NoFault | QueryFails | ScanFails(row: nat) | StreamFails

  /** The fault shows in a read of `n` rows. */
  predicate Shows(fault: ReadFault, n: nat) {
    fault.QueryFails? || fault.StreamFails? || (fault.ScanFails? && fault.row < n)
  }

  class PendingMessageRepo<V> {
    var rows: map<Key, V>

    constructor ()
      ensures rows == map[]
    {
      rows := map[];
    }

    method Create(session: string, sendAt: int, message: V, fails: bool) returns (ok: bool)
      modifies this
      ensures ok == !fails
      ensures rows == if fails then old(rows) else Insert(old(rows), Key(session, sendAt), message)
    {
      if fails {
        return false;
      }
      if Key(session, sendAt) !in rows {
        rows := rows[Key(session, sendAt) := message];
      }
      return true;
    }

    /** The messages of a session in ascending send time, and the last time read. */
    method GetAll(session: string, fault: ReadFault) returns (r: Result<(seq<V>, int), ()>)
      ensures var found := Query(rows, session);
        && (r.Failure? <==> Shows(fault, |found|))
        && (r.Success? ==> r.value.0 == Messages(found) && r.value.1 == LastStamp(found))
    {
      if fault.QueryFails? {
        return Failure(());
      }
      r := ScanRows(Query(rows, session), fault);
    }

    /** The row loop of GetAll: collects the messages and keeps the last time it saw. */
    static method ScanRows(found: seq<Row<V>>, fault: ReadFault) returns (r: Result<(seq<V>, int), ()>)
      requires !fault.QueryFails?
      ensures r.Failure? <==> Shows(fault, |found|)
      ensures r.Success? ==> r.value.0 == Messages(found) && r.value.1 == LastStamp(found)
    {
      var msgs, maxSendAt := [], 0;
      for i := 0 to |found|
        invariant msgs == Messages(found)[..i]
        invariant maxSendAt == if i == 0 then 0 else found[i - 1].sendAt
        invariant fault.ScanFails? ==> i <= fault.row
      {
        if fault == ScanFails(i) {
          return Failure(());
        }
        msgs := msgs + [found[i].value];
        maxSendAt := found[i].sendAt;
      }
      if fault.StreamFails? {
        return Failure(());
      }
      return Success((msgs, maxSendAt));
    }

    method DeleteUpTo(session: string, max: int, fails: bool) returns (ok: bool)
      modifies this
      ensures ok == !fails
      ensures rows == if fails then old(rows) else WithoutUpTo(old(rows), session, max)
    {
      if !fails {
        rows := map k | k in rows && !(k.session == session && k.sendAt <= max) :: rows[k];
      }
      return !fails;
    }

    /**
     The hub's Consume with nobody else at the table: it returns the whole session in
     order and, if the delete goes through, leaves no row of it behind and every other
     row in place.
     */
    method Consume(session: string, fault: ReadFault, deleteFails: bool) returns (r: Result<seq<V>, ()>)
      modifies this
      ensures r.Failure? <==> Shows(fault, |Query(old(rows), session)|)
      ensures r.Failure? ==> rows == old(rows)
      ensures r.Success? ==> r.value == Messages(Query(old(rows), session))
      ensures r.Success? ==> rows == if deleteFails then old(rows) else WithoutSession(old(rows), session)
    {
      var got := GetAll(session, fault);
      if got.Failure? {
        return Failure(());
      }
      DeletesWhatWasRead(rows, session);
      if |got.value.0| == 0 {
        return Success([]);
      }
      var _ := DeleteUpTo(session, got.value.1, deleteFails);
      return Success(got.value.0);
    }
  }
}

/**
 Buffered messages across reconnects: any number of senders saving and of containers
 consuming and writing what they consumed to a socket, interleaved at every table access,
 while expiry timers of earlier and present absences and the clean-up of outdated rows
 delete from the same table.
 */
module PendingHandoff {
  import opened PendingStore
  import opened Runs
  import opened Sessions

  type Consumer = nat

  type Payload = seq<int>

  /** A registration with a hub: the ordinal of a disconnect. */
  type Absence = nat

  /** A saved message carries the ordinal of its Save, so equal payloads stay distinct. */
  datatype Saved = Saved(id: nat, payload: Payload, expires: int)

  datatype Record = Record(session: Session, sendAt: int, payload: Payload, expires: int)

  /** What a Consume read, and the session it read it for. */
  datatype Batch = Batch(session: Session, rows: seq<Row<Saved>>)

  /** What a Consume returned, and the outcomes of the writes so far, in order. */
  datatype Sending = Sending(batch: Batch, results: seq<bool>)

  datatype State = State(
    rows: map<Key, Saved>,
    inFlight: map<Consumer, Batch>,  // between GetAll and DeleteUpTo
    saved: seq<Record>,              // every Save that reported success
    returned: seq<Sending>,          // every Consume that returned messages
    absences: seq<Session>,          // whose each registration is
    away: map<Session, Absence>,     // the registration in force, if the session has not come back
    spent: set<Absence>,             // timers whose expiry call has been made
    quit: set<Absence>,              // timers that quit on a cancelled context
    expired: set<nat>,               // dropped with their session, by the timer in force
    outdated: set<nat>)              // dropped past their time to live

  datatype Event =
    | Save(session: Session, sendAt: int, payload: Payload, expires: int, fails: bool)
    | Read(consumer: Consumer, session: Session, fails: bool)
    | Finish(consumer: Consumer, deleteFails: bool)
    | SendDirect(sending: nat, ok: bool)
    | Disconnect(session: Session)
    | Reconnect(session: Session)
    | QuitTimer(absence: Absence)
    | Expire(absence: Absence, fails: bool)
    | CleanUp(now: int, fails: bool)

  const INIT := State(map[], map[], [], [], [], map[], {}, {}, {}, {})

  function KeyOf(x: Session): string { SessionKey(x.user, x.instance) }

  function Max(b: Batch): int
    requires b.rows != []
  {
    b.rows[|b.rows| - 1].sendAt
  }

  function DoSave(s: State, x: Session, at: int, payload: Payload, expires: int, fails: bool): State {
    if fails then s
    else s.(rows := Insert(s.rows, Key(KeyOf(x), at), Saved(|s.saved|, payload, expires)),
            saved := s.saved + [Record(x, at, payload, expires)])
  }

  function DoRead(s: State, c: Consumer, x: Session, fails: bool): State {
    var found := Query(s.rows, KeyOf(x));
    if fails || c in s.inFlight || found == [] then s
    else s.(inFlight := s.inFlight[c := Batch(x, found)])
  }

  function DoFinish(s: State, c: Consumer, deleteFails: bool): State {
    if c !in s.inFlight || s.inFlight[c].rows == [] then s
    else
      var b := s.inFlight[c];
      s.(rows := if deleteFails then s.rows else WithoutUpTo(s.rows, KeyOf(b.session), Max(b)),
         inFlight := s.inFlight - {c},
         returned := s.returned + [Sending(b, [])])
  }

  /** The write of the next message of a batch. */
  predicate CanSend(s: State, i: nat) {
    i < |s.returned| && |s.returned[i].results| < |s.returned[i].batch.rows|
  }

  function DoSend(s: State, i: nat, ok: bool): State {
    if !CanSend(s, i) then s
    else s.(returned := s.returned[i := s.returned[i].(results := s.returned[i].results + [ok])])
  }

  /** The expiry call can still come: also after its session is back, or away anew. */
  predicate Due(s: State, g: Absence) { g < |s.absences| && g !in s.spent && g !in s.quit }

  /** The registration in force: its session has not come back since. */
  predicate Current(s: State, g: Absence) {
    g < |s.absences| && s.absences[g] in s.away && s.away[s.absences[g]] == g
  }

  /** The row holds a message saved for session `x` itself, not for another one with its key. */
  predicate Own(s: State, v: Saved, x: Session) { v.id < |s.saved| && s.saved[v.id].session == x }

  /** DeleteAllPendingMessage, as the expiry call of registration `g`. */
  function DoExpire(s: State, g: Absence, fails: bool): State {
    if !Due(s, g) then s
    else if fails then s.(spent := s.spent + {g})
    else
      var x := s.absences[g];
      var own := set k | k in s.rows && k.session == KeyOf(x) && Own(s, s.rows[k], x) :: s.rows[k].id;
      s.(spent := s.spent + {g}, rows := WithoutSession(s.rows, KeyOf(x)),
         expired := if Current(s, g) then s.expired + own else s.expired)
  }

  function DoCleanUp(s: State, now: int, fails: bool): State {
    if fails then s
    else
      s.(rows := map k | k in s.rows && !(s.rows[k].expires < now) :: s.rows[k],
         outdated := s.outdated + set k | k in s.rows && s.rows[k].expires < now :: s.rows[k].id)
  }

  function Step(s: State, e: Event): State {
    match e
    case Save(x, at, payload, expires, fails) => DoSave(s, x, at, payload, expires, fails)
    case Read(c, x, fails) => DoRead(s, c, x, fails)
    case Finish(c, deleteFails) => DoFinish(s, c, deleteFails)
    case SendDirect(i, ok) => DoSend(s, i, ok)
    case Disconnect(x) => s.(absences := s.absences + [x], away := s.away[x := |s.absences|])
    case Reconnect(x) => s.(away := s.away - {x})
    case QuitTimer(g) => s.(quit := s.quit + {g})
    case Expire(g, fails) => DoExpire(s, g, fails)
    case CleanUp(now, fails) => DoCleanUp(s, now, fails)
  }

  ghost function After(es: seq<Event>): State { Exec(Step, INIT, es) }

  ghost predicate Stored(s: State, id: nat) { exists k :: k in s.rows && s.rows[k].id == id }

  ghost predicate Has(b: Batch, id: nat) { exists i :: 0 <= i < |b.rows| && b.rows[i].value.id == id }

  ghost predicate InHand(s: State, id: nat) { exists c :: c in s.inFlight && Has(s.inFlight[c], id) }

  /** The write of the `j`-th message of the batch has failed. */
  predicate FailedAt(p: Sending, j: nat) { j < |p.results| && !p.results[j] }

  /** The message is in the batch, its write done or to come. */
  ghost predicate Carries(p: Sending, id: nat) {
    exists j :: 0 <= j < |p.batch.rows| && p.batch.rows[j].value.id == id && !FailedAt(p, j)
  }

  ghost predicate Delivering(s: State, id: nat) { exists i :: 0 <= i < |s.returned| && Carries(s.returned[i], id) }

  ghost predicate Seen(s: State, id: nat) { InHand(s, id) || Delivering(s, id) }

  /**
   The message is still in the table, with a Consume that read it, written to a socket or
   about to be, gone with its session when the timer in force ran out, or past its time to live.
   */
  ghost predicate Accounted(s: State, id: nat) {
    Stored(s, id) || Seen(s, id) || id in s.expired || id in s.outdated
  }

  ghost predicate Failing(p: Sending, id: nat) {
    exists j :: 0 <= j < |p.batch.rows| && p.batch.rows[j].value.id == id && FailedAt(p, j)
  }

  /** Some write of the message has failed. */
  ghost predicate WriteFailed(s: State, id: nat) { exists i :: 0 <= i < |s.returned| && Failing(s.returned[i], id) }

  /**
   What a Save needs: no row at its key, and a time above everything that Consumes still
   to delete have read for the session.
   */
  ghost predicate SafeSave(s: State, x: Session, at: int) {
    && Key(KeyOf(x), at) !in s.rows
    && forall c | c in s.inFlight && KeyOf(s.inFlight[c].session) == KeyOf(x) && s.inFlight[c].rows != [] ::
         Max(s.inFlight[c]) < at
  }

  /** What an expiry call needs: each row it deletes has been read, or is its own session's, away since. */
  ghost predicate SafeExpiry(s: State, g: Absence) {
    Due(s, g) ==>
      forall k | k in s.rows && k.session == KeyOf(s.absences[g]) ::
        (Current(s, g) && Own(s, s.rows[k], s.absences[g])) || Seen(s, s.rows[k].id)
  }

  ghost predicate Safe(s: State, e: Event) {
    && (e.Save? && !e.fails ==> SafeSave(s, e.session, e.sendAt))
    && (e.Expire? && !e.fails ==> SafeExpiry(s, e.absence))
  }

  // ----- What every run keeps -----

  ghost predicate Genuine(s: State, key: string, r: Row<Saved>) {
    && r.value.id < |s.saved|
    && KeyOf(s.saved[r.value.id].session) == key
    && s.saved[r.value.id].sendAt == r.sendAt
    && s.saved[r.value.id].payload == r.value.payload
    && s.saved[r.value.id].expires == r.value.expires
  }

  ghost predicate GenuineBatch(s: State, b: Batch) {
    && b.rows != []
    && (forall i | 0 <= i < |b.rows| :: Genuine(s, KeyOf(b.session), b.rows[i]))
    && (forall i, j | 0 <= i < j < |b.rows| :: b.rows[i].sendAt < b.rows[j].sendAt)
  }

  /** Rows, reads and deliveries are what was saved, under the right key, in ascending order. */
  ghost predicate Integrity(s: State) {
    && (forall k | k in s.rows :: Genuine(s, k.session, Row(k.sendAt, s.rows[k])))
    && (forall c | c in s.inFlight :: GenuineBatch(s, s.inFlight[c]))
    && (forall i | 0 <= i < |s.returned| :: GenuineBatch(s, s.returned[i].batch))
    && (forall id | id in s.expired || id in s.outdated :: id < |s.saved|)
  }

  lemma SaveKeepsIntegrity(s: State, e: Event)
    requires Integrity(s) && e.Save?
    ensures Integrity(Step(s, e))
  {
    var s' := Step(s, e);
    forall b | GenuineBatch(s, b) ensures GenuineBatch(s', b) {
      forall i | 0 <= i < |b.rows| ensures Genuine(s', KeyOf(b.session), b.rows[i]) {
        assert Genuine(s, KeyOf(b.session), b.rows[i]);
      }
    }
  }

  lemma ReadKeepsIntegrity(s: State, e: Event)
    requires Integrity(s) && e.Read?
    ensures Integrity(Step(s, e))
  {
    var found := Query(s.rows, KeyOf(e.session));
    if !e.fails && e.consumer !in s.inFlight && found != [] {
      ReadIsGenuine(s, e.session);
      HoldsBatch(s, e.consumer, Batch(e.session, found));
    }
  }

  lemma ReadIsGenuine(s: State, x: Session)
    requires Integrity(s) && Query(s.rows, KeyOf(x)) != []
    ensures GenuineBatch(s, Batch(x, Query(s.rows, KeyOf(x))))
  {
    var found := Query(s.rows, KeyOf(x));
    forall i | 0 <= i < |found| ensures Genuine(s, KeyOf(x), found[i]) {
      assert Key(KeyOf(x), found[i].sendAt) in s.rows;
    }
  }

  lemma HoldsBatch(s: State, c: Consumer, b: Batch)
    requires Integrity(s) && GenuineBatch(s, b)
    ensures Integrity(s.(inFlight := s.inFlight[c := b]))
  {
    var t := s.(inFlight := s.inFlight[c := b]);
    assert forall key, r :: Genuine(t, key, r) == Genuine(s, key, r);
    forall a | GenuineBatch(s, a) ensures GenuineBatch(t, a) {}
  }

  ghost predicate Known(s: State, b: Batch) {
    (exists i :: 0 <= i < |s.returned| && s.returned[i].batch == b) || (exists c :: c in s.inFlight && s.inFlight[c] == b)
  }

  /** Fewer rows, and batches that are known already. */
  ghost predicate Fewer(s: State, t: State) {
    && t.saved == s.saved
    && (forall k | k in t.rows :: k in s.rows && t.rows[k] == s.rows[k])
    && (forall c | c in t.inFlight :: c in s.inFlight && t.inFlight[c] == s.inFlight[c])
    && (forall i | 0 <= i < |t.returned| :: Known(s, t.returned[i].batch))
    && (forall id | id in t.expired || id in t.outdated :: id in s.expired || id in s.outdated || Stored(s, id))
  }

  lemma FewerKeepsIntegrity(s: State, t: State)
    requires Integrity(s) && Fewer(s, t)
    ensures Integrity(t)
  {
    forall b | GenuineBatch(s, b) ensures GenuineBatch(t, b) {}
    forall k | k in t.rows ensures Genuine(t, k.session, Row(k.sendAt, t.rows[k])) {
      assert Genuine(s, k.session, Row(k.sendAt, s.rows[k]));
    }
    forall id | id in t.expired || id in t.outdated ensures id < |t.saved| {
      if Stored(s, id) {
        var k :| k in s.rows && s.rows[k].id == id;
        assert Genuine(s, k.session, Row(k.sendAt, s.rows[k]));
      }
    }
  }

  lemma FinishHasFewer(s: State, c: Consumer, deleteFails: bool)
    ensures Fewer(s, DoFinish(s, c, deleteFails))
  {
    var t := DoFinish(s, c, deleteFails);
    forall i | 0 <= i < |t.returned| ensures Known(s, t.returned[i].batch) {
      assert i < |s.returned| ==> t.returned[i] == s.returned[i];
    }
  }

  lemma OthersHaveFewer(s: State, e: Event)
    requires !e.Save? && !e.Read? && !e.Finish?
    ensures Fewer(s, Step(s, e))
  {
    if e.Expire? {
      ExpiryHasFewer(s, e.absence, e.fails);
    } else {
      var t := Step(s, e);
      forall i | 0 <= i < |t.returned| ensures Known(s, t.returned[i].batch) {
        assert t.returned[i].batch == s.returned[i].batch;
      }
    }
  }

  lemma ExpiryHasFewer(s: State, g: Absence, fails: bool)
    ensures Fewer(s, DoExpire(s, g, fails))
  {
    forall i | 0 <= i < |s.returned| ensures Known(s, s.returned[i].batch) {}
  }

  lemma StepKeepsIntegrity(s: State, e: Event)
    requires Integrity(s)
    ensures Integrity(Step(s, e))
  {
    match e
    case Save(_, _, _, _, _) => SaveKeepsIntegrity(s, e);
    case Read(_, _, _) => ReadKeepsIntegrity(s, e);
    case Finish(c, deleteFails) =>
      FinishHasFewer(s, c, deleteFails);
      FewerKeepsIntegrity(s, Step(s, e));
    case _ =>
      OthersHaveFewer(s, e);
      FewerKeepsIntegrity(s, Step(s, e));
  }

  /**
   In every run, whatever happens, no Consume returns a message that was not saved under
   its session's key, or out of order.
   */
  lemma OnlySavedInOrder(es: seq<Event>)
    ensures Integrity(After(es))
  {
    forall s, e | Integrity(s) ensures Integrity(Step(s, e)) { StepKeepsIntegrity(s, e); }
    Invariant(Step, Integrity, INIT, es);
  }

  // ----- Whose messages a session gets -----

  /** Some Consume for `b` returned a message saved for `a`. */
  ghost predicate Receives(s: State, b: Session, a: Session) {
    exists i, j :: 0 <= i < |s.returned| && s.returned[i].batch.session == b && 0 <= j < |s.returned[i].batch.rows|
      && Own(s, s.returned[i].batch.rows[j].value, a)
  }

  lemma ReceivesOnlyOnSharedKey(es: seq<Event>, a: Session, b: Session)
    requires Receives(After(es), b, a)
    ensures KeyOf(a) == KeyOf(b)
  {
    OnlySavedInOrder(es);
    var s := After(es);
    var i, j :| 0 <= i < |s.returned| && s.returned[i].batch.session == b && 0 <= j < |s.returned[i].batch.rows|
      && Own(s, s.returned[i].batch.rows[j].value, a);
    assert GenuineBatch(s, s.returned[i].batch);
    assert Genuine(s, KeyOf(b), s.returned[i].batch.rows[j]);
  }

  lemma SharedKeyReceives(a: Session, b: Session)
    requires KeyOf(a) == KeyOf(b)
    ensures Receives(After([Save(a, 1, [], 0, false), Read(0, b, false), Finish(0, false)]), b, a)
  {
    ExecThree(Step, INIT, Save(a, 1, [], 0, false), Read(0, b, false), Finish(0, false));
    ReadOne(a, b, 1);
    var s := Step(OneRead(a, b, 1), Finish(0, false));
    assert s.returned[0].batch == Batch(b, [Row(1, Saved(0, [], 0))]);
    assert Own(s, s.returned[0].batch.rows[0].value, a);
  }

  /** One session can be given another's messages exactly if they share a table key. */
  lemma ReceivesExactlyOnSharedKey(a: Session, b: Session)
    ensures (exists es :: Receives(After(es), b, a)) <==> KeyOf(a) == KeyOf(b)
  {
    forall es | Receives(After(es), b, a) ensures KeyOf(a) == KeyOf(b) { ReceivesOnlyOnSharedKey(es, a, b); }
    if KeyOf(a) == KeyOf(b) {
      SharedKeyReceives(a, b);
    }
  }

  /** Where no user ID holds a colon, every session gets its own messages only. */
  lemma ColonFreeGetsItsOwn(es: seq<Event>, b: Session, a: Session)
    requires ':' !in a.user && ':' !in b.user && Receives(After(es), b, a)
    ensures a == b
  {
    ReceivesExactlyOnSharedKey(a, b);
    SessionKeysCollide(a.user, a.instance, b.user, b.instance);
  }

  /** With colons they may: "a:b" with "c" is given what was saved for "a" with "b:c". */
  lemma ColonLeaks()
    ensures exists es :: Receives(After(es), Session("a:b", "c"), Session("a", "b:c"))
  {
    assert "a:b" == "a" + ":" + "b" && "b:c" == "b" + ":" + "c";
    SessionKeysCollide("a:b", "c", "a", "b:c");
    ReceivesExactlyOnSharedKey(Session("a", "b:c"), Session("a:b", "c"));
  }

  // ----- Nothing is lost while every step is safe -----

  /** Everything a pending delete will remove has been read by its Consume. */
  ghost predicate DeletesOnlyRead(s: State) {
    forall c, k | c in s.inFlight && k in s.rows && KeyOf(s.inFlight[c].session) == k.session
        && s.inFlight[c].rows != [] && k.sendAt <= Max(s.inFlight[c]) ::
      Row(k.sendAt, s.rows[k]) in s.inFlight[c].rows
  }

  /** Every message is accounted for, or its write to a socket has failed. */
  ghost predicate NoLoss(s: State) {
    forall id: nat | id < |s.saved| :: Accounted(s, id) || WriteFailed(s, id)
  }

  ghost predicate Inv(s: State) { Integrity(s) && DeletesOnlyRead(s) && NoLoss(s) }

  lemma FinishAccounts(s: State, e: Event, id: nat)
    requires DeletesOnlyRead(s) && Accounted(s, id) && e.Finish?
    ensures Accounted(Step(s, e), id)
  {
    var s' := Step(s, e);
    if e.consumer in s.inFlight && s.inFlight[e.consumer].rows != [] {
      var b := s.inFlight[e.consumer];
      assert s'.returned[|s.returned|] == Sending(b, []);
      assert Has(b, id) ==> Carries(Sending(b, []), id);
      if Stored(s, id) {
        var k :| k in s.rows && s.rows[k].id == id;
        if k !in s'.rows {
          assert Row(k.sendAt, s.rows[k]) in b.rows;
          assert Has(b, id);
        }
      } else if InHand(s, id) {
        var c :| c in s.inFlight && Has(s.inFlight[c], id);
        assert c == e.consumer || c in s'.inFlight;
      } else if Delivering(s, id) {
        var i :| 0 <= i < |s.returned| && Carries(s.returned[i], id);
        assert s'.returned[i] == s.returned[i];
      }
    }
  }

  /** A step that deletes no row takes nothing out of sight. */
  lemma OthersAccount(s: State, e: Event, id: nat)
    requires Accounted(s, id) && !e.Finish? && !e.SendDirect? && !e.Expire? && !e.CleanUp?
    ensures Accounted(Step(s, e), id)
  {
    var s' := Step(s, e);
    if Stored(s, id) {
      var k :| k in s.rows && s.rows[k].id == id;
      assert k in s'.rows && s'.rows[k] == s.rows[k];
    } else if InHand(s, id) {
      var c :| c in s.inFlight && Has(s.inFlight[c], id);
      assert c in s'.inFlight && s'.inFlight[c] == s.inFlight[c];
    }
  }

  lemma DeletersAccount(s: State, e: Event, id: nat)
    requires Accounted(s, id) && Safe(s, e) && (e.Expire? || e.CleanUp?)
    ensures Accounted(Step(s, e), id)
  {
    var s' := Step(s, e);
    assert s'.inFlight == s.inFlight && s'.returned == s.returned;
    if Stored(s, id) {
      var k :| k in s.rows && s.rows[k].id == id;
      assert k in s'.rows || id in s'.expired || id in s'.outdated || Seen(s, id);
    }
  }

  /** A write leaves the message written, or failed; the other messages and copies as they were. */
  lemma SendAccounts(s: State, e: Event, id: nat)
    requires Accounted(s, id) && e.SendDirect?
    ensures Accounted(Step(s, e), id) || WriteFailed(Step(s, e), id)
  {
    var t := Step(s, e);
    if Stored(s, id) || InHand(s, id) || id in s.expired || id in s.outdated {
      assert t.rows == s.rows && t.inFlight == s.inFlight && t.expired == s.expired && t.outdated == s.outdated;
    } else {
      var i :| 0 <= i < |s.returned| && Carries(s.returned[i], id);
      var j :| 0 <= j < |s.returned[i].batch.rows| && s.returned[i].batch.rows[j].value.id == id && !FailedAt(s.returned[i], j);
      assert t.returned[i].batch == s.returned[i].batch;
      assert FailedAt(t.returned[i], j) ==> Failing(t.returned[i], id);
      assert !FailedAt(t.returned[i], j) ==> Carries(t.returned[i], id);
    }
  }

  /** A failed write stays on record. */
  lemma FailureStays(s: State, e: Event, id: nat)
    requires WriteFailed(s, id)
    ensures WriteFailed(Step(s, e), id)
  {
    var t := Step(s, e);
    var i :| 0 <= i < |s.returned| && Failing(s.returned[i], id);
    var j :| 0 <= j < |s.returned[i].batch.rows| && s.returned[i].batch.rows[j].value.id == id && FailedAt(s.returned[i], j);
    assert t.returned[i].batch == s.returned[i].batch && FailedAt(t.returned[i], j);
    assert Failing(t.returned[i], id);
  }

  lemma StepAccounts(s: State, e: Event, id: nat)
    requires Inv(s) && Safe(s, e) && id < |Step(s, e).saved|
    ensures Accounted(Step(s, e), id) || WriteFailed(Step(s, e), id)
  {
    var s' := Step(s, e);
    if id == |s.saved| {
      assert s'.rows[Key(KeyOf(e.session), e.sendAt)].id == id;
    } else if WriteFailed(s, id) {
      FailureStays(s, e, id);
    } else {
      assert Accounted(s, id);
      if e.SendDirect? {
        SendAccounts(s, e, id);
      } else if e.Finish? {
        FinishAccounts(s, e, id);
      } else if e.Expire? || e.CleanUp? {
        DeletersAccount(s, e, id);
      } else {
        OthersAccount(s, e, id);
      }
    }
  }

  lemma DeletesStayRead(s: State, e: Event)
    requires DeletesOnlyRead(s) && Safe(s, e)
    ensures DeletesOnlyRead(Step(s, e))
  {
  }

  lemma SafeStepKeeps(s: State, e: Event)
    requires Inv(s) && Safe(s, e)
    ensures Inv(Step(s, e))
  {
    StepKeepsIntegrity(s, e);
    DeletesStayRead(s, e);
    forall id: nat | id < |Step(s, e).saved| ensures Accounted(Step(s, e), id) || WriteFailed(Step(s, e), id) {
      StepAccounts(s, e, id);
    }
  }

  /** Every Save and every expiry call of the run was safe when it reached the table. */
  ghost predicate AllSafe(es: seq<Event>) {
    forall i | 0 <= i < |es| :: Safe(After(es[..i]), es[i])
  }

  /**
   No buffered message is lost: in every interleaving of saves, reads, deletes, writes,
   expiry calls and clean-ups (each of which may fail) whose saves and expiry calls are
   safe, every saved message is accounted for, or a write of it has failed.
   */
  lemma {:induction false} NoSavedMessageIsLost(es: seq<Event>)
    requires AllSafe(es)
    ensures NoLoss(After(es)) && Integrity(After(es))
  {
    InvAfter(es);
  }

  lemma {:induction false} InvAfter(es: seq<Event>)
    requires AllSafe(es)
    ensures Inv(After(es))
  {
    if es == [] {
    } else {
      var init := es[..|es| - 1];
      forall i | 0 <= i < |init| ensures Safe(After(init[..i]), init[i]) {
        assert init[..i] == es[..i];
      }
      InvAfter(init);
      SafeStepKeeps(After(init), es[|es| - 1]);
    }
  }

  // ----- The condition is needed -----

  ghost predicate Gone(s: State, id: nat) {
    id < |s.saved| && Integrity(s) && !Accounted(s, id)
  }

  lemma GoneStaysGone(s: State, e: Event, id: nat)
    requires Gone(s, id)
    ensures Gone(Step(s, e), id)
  {
    StepKeepsIntegrity(s, e);
    NotStoredAgain(s, e, id);
    NotReadAgain(s, e, id);
    NotReturnedLater(s, e, id);
  }

  lemma NotStoredAgain(s: State, e: Event, id: nat)
    requires Gone(s, id)
    ensures var t := Step(s, e); !Stored(t, id) && id !in t.expired && id !in t.outdated
  {
  }

  lemma NotReadAgain(s: State, e: Event, id: nat)
    requires !Stored(s, id) && !InHand(s, id)
    ensures !InHand(Step(s, e), id)
  {
    var t := Step(s, e);
    forall c | c in t.inFlight ensures !Has(t.inFlight[c], id) {
      if c in s.inFlight {
        assert t.inFlight[c] == s.inFlight[c];
      } else {
        assert t.inFlight[c] == Batch(e.session, Query(s.rows, KeyOf(e.session)));
        NotFound(s, e.session, id);
      }
    }
  }

  lemma NotFound(s: State, x: Session, id: nat)
    requires !Stored(s, id)
    ensures !Has(Batch(x, Query(s.rows, KeyOf(x))), id)
  {
    var found := Query(s.rows, KeyOf(x));
    forall i | 0 <= i < |found| ensures found[i].value.id != id {
      assert Key(KeyOf(x), found[i].sendAt) in s.rows;
    }
  }

  lemma NotReturnedLater(s: State, e: Event, id: nat)
    requires !InHand(s, id) && !Delivering(s, id)
    ensures !Delivering(Step(s, e), id)
  {
    var t := Step(s, e);
    forall i | 0 <= i < |t.returned| ensures !Carries(t.returned[i], id) {
      if i < |s.returned| {
        assert t.returned[i].batch == s.returned[i].batch;
        assert forall j :: FailedAt(s.returned[i], j) ==> FailedAt(t.returned[i], j);
      } else {
        assert t.returned[i].batch == s.inFlight[e.consumer];
      }
    }
  }

  lemma GoneForever(s: State, id: nat, gs: seq<Event>)
    requires Gone(s, id)
    ensures !Accounted(Exec(Step, s, gs), id)
  {
    var gone := t => Gone(t, id);
    forall t, e | gone(t) ensures gone(Step(t, e)) { GoneStaysGone(t, e, id); }
    Invariant(Step, gone, s, gs);
  }

  /** After an unsafe Save, at most one delete separates the message from being gone. */
  lemma UnsafeSaveIsLost(s: State, e: Event) returns (fs: seq<Event>)
    requires Integrity(s) && e.Save? && !Safe(s, e)
    ensures |fs| <= 1 && Gone(Exec(Step, Step(s, e), fs), |s.saved|)
  {
    StepKeepsIntegrity(s, e);
    NewIsUnread(s, |s.saved|);
    if Key(KeyOf(e.session), e.sendAt) in s.rows {
      fs := [];
      TakenKeyDropsIt(s, e);
    } else {
      var c :| c in s.inFlight && Covers(s.inFlight[c], e);
      fs := [Finish(c, false)];
      StepKeepsIntegrity(Step(s, e), Finish(c, false));
      FinishDropsIt(s, Step(s, e), e, c);
      FinishRun(Step(s, e), c);
    }
  }

  lemma FinishRun(s: State, c: Consumer)
    ensures Exec(Step, s, [Finish(c, false)]) == Step(s, Finish(c, false))
  {
    Snoc(Step, s, [], Finish(c, false));
    assert [] + [Finish(c, false)] == [Finish(c, false)];
  }

  /** The delete of a Consume that read this will remove the row of the Save, whether read or not. */
  predicate Covers(b: Batch, e: Event)
    requires e.Save?
  {
    KeyOf(b.session) == KeyOf(e.session) && b.rows != [] && e.sendAt <= Max(b)
  }

  lemma TakenKeyDropsIt(s: State, e: Event)
    requires e.Save? && !e.fails && Key(KeyOf(e.session), e.sendAt) in s.rows && !Accounted(s, |s.saved|)
    ensures !Accounted(Step(s, e), |s.saved|)
  {
    assert Step(s, e) == s.(saved := Step(s, e).saved);
  }

  /** An ID not drawn yet is nowhere. */
  lemma NewIsUnread(s: State, id: nat)
    requires Integrity(s) && |s.saved| <= id
    ensures !Accounted(s, id)
  {
    forall k | k in s.rows ensures s.rows[k].id != id {
      assert Genuine(s, k.session, Row(k.sendAt, s.rows[k]));
    }
    assert forall b | GenuineBatch(s, b) :: !Has(b, id);
    assert forall p: Sending | GenuineBatch(s, p.batch) :: !Carries(p, id);
  }

  lemma FinishDropsIt(s: State, s1: State, e: Event, c: Consumer)
    requires e.Save? && !e.fails && s1 == Step(s, e) && !Accounted(s, |s.saved|)
    requires c in s.inFlight && Covers(s.inFlight[c], e)
    ensures !Accounted(Step(s1, Finish(c, false)), |s.saved|)
  {
    var id := |s.saved|;
    var s2 := Step(s1, Finish(c, false));
    forall k | k in s2.rows ensures s2.rows[k].id != id {
      assert k in s1.rows && k != Key(KeyOf(e.session), e.sendAt) && k in s.rows;
    }
    forall i | 0 <= i < |s2.returned| ensures !Carries(s2.returned[i], id) {
      assert s2.returned[i] == if i < |s.returned| then s.returned[i] else Sending(s.inFlight[c], []);
    }
  }

  /** An unsafe expiry call loses a message at once. */
  lemma UnsafeExpiryLoses(s: State, e: Event) returns (id: nat)
    requires Integrity(s) && RowsLive(s) && e.Expire? && !Safe(s, e)
    ensures Gone(Step(s, e), id)
  {
    var x := s.absences[e.absence];
    var k :| k in s.rows && k.session == KeyOf(x) && !(Current(s, e.absence) && Own(s, s.rows[k], x))
      && !Seen(s, s.rows[k].id);
    id := s.rows[k].id;
    StepKeepsIntegrity(s, e);
    assert Genuine(s, k.session, Row(k.sendAt, s.rows[k]));
    ExpiryDropsIt(s, e, k);
  }

  /** A message with a row has not been dropped. */
  ghost predicate RowsLive(s: State) {
    forall k | k in s.rows :: s.rows[k].id !in s.expired && s.rows[k].id !in s.outdated
  }

  /** The record of a message says which its row is. */
  lemma OneRow(s: State, k: Key, l: Key)
    requires Integrity(s) && k in s.rows && l in s.rows && s.rows[k].id == s.rows[l].id
    ensures k == l
  {
    assert Genuine(s, k.session, Row(k.sendAt, s.rows[k])) && Genuine(s, l.session, Row(l.sendAt, s.rows[l]));
  }

  lemma DeletedRowsGo(s: State, e: Event)
    requires Integrity(s) && RowsLive(s) && (e.Expire? || e.CleanUp?)
    ensures RowsLive(Step(s, e))
  {
    var t := Step(s, e);
    forall k | k in t.rows ensures t.rows[k].id !in t.expired && t.rows[k].id !in t.outdated {
      assert t.rows[k] == s.rows[k];
      forall l | l in s.rows && s.rows[l].id == s.rows[k].id ensures l == k { OneRow(s, l, k); }
    }
  }

  lemma RowsStayLive(s: State, e: Event)
    requires Integrity(s) && RowsLive(s)
    ensures RowsLive(Step(s, e))
  {
    if e.Expire? || e.CleanUp? {
      DeletedRowsGo(s, e);
    }
  }

  lemma RowsLiveAfter(es: seq<Event>)
    ensures Integrity(After(es)) && RowsLive(After(es))
  {
    var inv := s => Integrity(s) && RowsLive(s);
    forall s, e | inv(s) ensures inv(Step(s, e)) {
      StepKeepsIntegrity(s, e);
      RowsStayLive(s, e);
    }
    Invariant(Step, inv, INIT, es);
  }

  lemma ExpiryDropsIt(s: State, e: Event, k: Key)
    requires Integrity(s) && RowsLive(s) && e.Expire? && !e.fails && Due(s, e.absence) && k in s.rows
    requires var x := s.absences[e.absence];
      k.session == KeyOf(x) && !(Current(s, e.absence) && Own(s, s.rows[k], x))
    requires !Seen(s, s.rows[k].id)
    ensures !Accounted(Step(s, e), s.rows[k].id)
  {
    var t := Step(s, e);
    assert t.inFlight == s.inFlight && t.returned == s.returned && t.outdated == s.outdated;
    forall l | l in s.rows && s.rows[l].id == s.rows[k].id ensures l == k { OneRow(s, l, k); }
  }

  /** After `es`, `e` and `fs`, message `id` is nowhere to be found, whatever follows. */
  ghost predicate LostFor(es: seq<Event>, e: Event, fs: seq<Event>, id: nat) {
    && id < |After(es + [e]).saved|
    && forall gs: seq<Event> :: !Accounted(Exec(Step, After(es + [e] + fs), gs), id)
  }

  /**
   Safety of each step is necessary as well: after any run at all, an unsafe Save or expiry
   call has a continuation, at most one delete long, after which a message whose Save
   reported success is neither stored nor ever returned, whatever follows.
   */
  lemma UnsafeStepLosesAMessage(es: seq<Event>, e: Event)
    requires !Safe(After(es), e)
    ensures exists fs: seq<Event>, id: nat :: |fs| <= 1 && LostFor(es, e, fs, id)
  {
    RowsLiveAfter(es);
    var s := After(es);
    var fs, id := [], 0;
    if e.Save? {
      id := |s.saved|;
      fs := UnsafeSaveIsLost(s, e);
    } else {
      id := UnsafeExpiryLoses(s, e);
      assert Exec(Step, Step(s, e), fs) == Step(s, e);
    }
    Snoc(Step, INIT, es, e);
    Concat(Step, INIT, es + [e], fs);
    var s2 := Exec(Step, Step(s, e), fs);
    forall gs: seq<Event> ensures !Accounted(Exec(Step, s2, gs), id) {
      GoneForever(s2, id, gs);
    }
    assert LostFor(es, e, fs, id);
  }

  // ----- What the books mean, by the events of the run -----

  /** The row holds the message, and its time to live ended before `now`. */
  ghost predicate OutdatedRow(s: State, id: nat, now: int) {
    exists k :: k in s.rows && s.rows[k].id == id && s.rows[k].expires < now
  }

  /** The event: a clean-up that goes through meets a row of the message past its time to live. */
  ghost function Outdates(id: nat): (State, Event) -> bool {
    (s: State, e: Event) => e.CleanUp? && !e.fails && OutdatedRow(s, id, e.now)
  }

  ghost predicate OwnRow(s: State, id: nat, x: Session) {
    exists k :: k in s.rows && k.session == KeyOf(x) && s.rows[k].id == id && Own(s, s.rows[k], x)
  }

  /** The event: the expiry call of the registration in force goes through and meets a row of its own session. */
  ghost function Expires(id: nat): (State, Event) -> bool {
    (s: State, e: Event) =>
      e.Expire? && !e.fails && Due(s, e.absence) && Current(s, e.absence) && OwnRow(s, id, s.absences[e.absence])
  }

  lemma OutdatedStep(s: State, e: Event, id: nat)
    ensures id in Step(s, e).outdated <==> id in s.outdated || Outdates(id)(s, e)
  {
  }

  lemma ExpiredStep(s: State, e: Event, id: nat)
    ensures id in Step(s, e).expired <==> id in s.expired || Expires(id)(s, e)
  {
  }

  /** A message counts as outdated exactly after a clean-up that met it past its time to live. */
  lemma OutdatedExactly(es: seq<Event>, id: nat)
    ensures id in After(es).outdated <==> Ever(Step, INIT, es, Outdates(id))
  {
    var q := (s: State) => id in s.outdated;
    forall s, e ensures q(Step(s, e)) <==> q(s) || Outdates(id)(s, e) { OutdatedStep(s, e, id); }
    ExactlyAfter(Step, INIT, es, Outdates(id), q);
  }

  /** And as expired exactly after an expiry call for the registration in force that met it. */
  lemma ExpiredExactly(es: seq<Event>, id: nat)
    ensures id in After(es).expired <==> Ever(Step, INIT, es, Expires(id))
  {
    var q := (s: State) => id in s.expired;
    forall s, e ensures q(Step(s, e)) <==> q(s) || Expires(id)(s, e) { ExpiredStep(s, e, id); }
    ExactlyAfter(Step, INIT, es, Expires(id), q);
  }

  /** A clean-up that goes through keeps a row exactly if its time to live has not ended. */
  lemma CleanUpKeepsExactly(s: State, now: int, k: Key)
    ensures var t := Step(s, CleanUp(now, false));
      (k in t.rows <==> k in s.rows && now <= s.rows[k].expires) && (k in t.rows ==> t.rows[k] == s.rows[k])
  {
  }

  /** An expiry call that goes through keeps a row exactly if it is of another key; a second call does nothing. */
  lemma ExpiryKeepsExactly(s: State, g: Absence, k: Key)
    requires g < |s.absences| && g !in s.spent && g !in s.quit
    ensures var t := Step(s, Expire(g, false));
      && (k in t.rows <==> k in s.rows && k.session != KeyOf(s.absences[g])) && (k in t.rows ==> t.rows[k] == s.rows[k])
      && Step(t, Expire(g, false)) == t
  {
  }

  /** The event: the expiry call of the registration is made, or its timer quits. */
  function UsesUp(g: Absence): (State, Event) -> bool {
    (s: State, e: Event) => e == QuitTimer(g) || (e.Expire? && e.absence == g && g < |s.absences|)
  }

  /** An expiry call is still to come exactly if its registration was made and its timer has neither called nor quit. */
  lemma DueExactly(es: seq<Event>, g: Absence)
    ensures Due(After(es), g) <==> g < |After(es).absences| && !Ever(Step, INIT, es, UsesUp(g))
  {
    var q := (s: State) => g in s.spent || g in s.quit;
    forall s, e ensures q(Step(s, e)) <==> q(s) || UsesUp(g)(s, e) { UsedUpStep(s, e, g); }
    ExactlyAfter(Step, INIT, es, UsesUp(g), q);
  }

  lemma UsedUpStep(s: State, e: Event, g: Absence)
    ensures var t := Step(s, e); g in t.spent || g in t.quit <==> g in s.spent || g in s.quit || UsesUp(g)(s, e)
  {
  }

  /** Registration `g` of session `x` is made, as the next in number. */
  function Registers(x: Session, g: Absence): (State, Event) -> bool {
    (s: State, e: Event) => e == Disconnect(x) && |s.absences| == g
  }

  /** The session comes back, or leaves anew. */
  function Returns(x: Session): (State, Event) -> bool {
    (s: State, e: Event) => e == Reconnect(x) || e == Disconnect(x)
  }

  /** A registration is in force exactly since it was made and until its session comes back or leaves anew. */
  lemma CurrentExactlySince(es: seq<Event>, x: Session, g: Absence)
    ensures x in After(es).away && After(es).away[x] == g <==> Since(Step, INIT, es, Registers(x, g), Returns(x))
  {
    var q := (s: State) => x in s.away && s.away[x] == g;
    forall s, e ensures q(Step(s, e)) <==> Registers(x, g)(s, e) || (q(s) && !Returns(x)(s, e)) {}
    ExactlySince(Step, INIT, es, Registers(x, g), Returns(x), q);
  }

  lemma MadeExactly(es: seq<Event>, x: Session, g: Absence)
    ensures g < |After(es).absences| && After(es).absences[g] == x <==> Ever(Step, INIT, es, Registers(x, g))
  {
    var q := (s: State) => g < |s.absences| && s.absences[g] == x;
    forall s, e ensures q(Step(s, e)) <==> q(s) || Registers(x, g)(s, e) {}
    ExactlyAfter(Step, INIT, es, Registers(x, g), q);
  }

  // ----- What a reconnect gets -----

  /** The writes of a whole batch, all of them good. */
  function WriteAll(i: nat, n: nat): seq<Event> { seq(n, _ => SendDirect(i, true)) }

  lemma {:induction false} WritesAll(s: State, i: nat, n: nat)
    requires i < |s.returned| && s.returned[i].results == [] && n <= |s.returned[i].batch.rows|
    ensures var t := Exec(Step, s, WriteAll(i, n));
      t == s.(returned := s.returned[i := Sending(s.returned[i].batch, seq(n, _ => true))])
  {
    if n == 0 {
      assert s.returned[i] == Sending(s.returned[i].batch, seq(0, _ => true));
      assert s.returned[i := s.returned[i]] == s.returned;
    } else {
      WritesAll(s, i, n - 1);
      assert WriteAll(i, n) == WriteAll(i, n - 1) + [SendDirect(i, true)];
      Snoc(Step, s, WriteAll(i, n - 1), SendDirect(i, true));
      WritesOne(s, i, s.returned[i].batch, n - 1);
    }
  }

  lemma WritesOne(s: State, i: nat, b: Batch, n: nat)
    requires i < |s.returned| && n < |b.rows|
    ensures Step(s.(returned := s.returned[i := Sending(b, seq(n, _ => true))]), SendDirect(i, true))
      == s.(returned := s.returned[i := Sending(b, seq(n + 1, _ => true))])
  {
    assert seq(n, _ => true) + [true] == seq(n + 1, _ => true);
  }

  /**
   After any run, a reconnect that nobody interferes with writes every message that is
   stored under the session's key, in ascending send time, to its socket, and leaves none of
   them and every other row in the table.
   */
  lemma ReconnectGetsEverything(es: seq<Event>, c: Consumer, x: Session)
    requires c !in After(es).inFlight && Query(After(es).rows, KeyOf(x)) != []
    ensures var s := After(es);
      var found := Query(s.rows, KeyOf(x));
      var t := After(es + [Read(c, x, false)] + [Finish(c, false)] + WriteAll(|s.returned|, |found|));
      && t.rows == WithoutSession(s.rows, KeyOf(x)) && t.inFlight == s.inFlight
      && t.returned == s.returned + [Sending(Batch(x, found), seq(|found|, _ => true))]
  {
    var s := After(es);
    var b := Batch(x, Query(s.rows, KeyOf(x)));
    Snoc(Step, INIT, es, Read(c, x, false));
    Snoc(Step, INIT, es + [Read(c, x, false)], Finish(c, false));
    var u := ReadThenFinish(s, c, x);
    Concat(Step, INIT, es + [Read(c, x, false)] + [Finish(c, false)], WriteAll(|s.returned|, |b.rows|));
    WritesLast(u, s.returned, b);
  }

  lemma WritesLast(s: State, earlier: seq<Sending>, b: Batch)
    requires s.returned == earlier + [Sending(b, [])]
    ensures Exec(Step, s, WriteAll(|earlier|, |b.rows|)) ==
      s.(returned := earlier + [Sending(b, seq(|b.rows|, _ => true))])
  {
    WritesAll(s, |earlier|, |b.rows|);
    assert s.returned[|earlier| := Sending(b, seq(|b.rows|, _ => true))] == earlier + [Sending(b, seq(|b.rows|, _ => true))];
  }

  lemma ReadThenFinish(s: State, c: Consumer, x: Session) returns (u: State)
    requires c !in s.inFlight && Query(s.rows, KeyOf(x)) != []
    ensures u == Step(Step(s, Read(c, x, false)), Finish(c, false))
    ensures u.rows == WithoutSession(s.rows, KeyOf(x)) && u.inFlight == s.inFlight
    ensures u.returned == s.returned + [Sending(Batch(x, Query(s.rows, KeyOf(x))), [])]
  {
    var b := Batch(x, Query(s.rows, KeyOf(x)));
    var r := Step(s, Read(c, x, false));
    assert r == s.(inFlight := s.inFlight[c := b]);
    Finishes(r, c, b);
    assert r.inFlight - {c} == s.inFlight;
    u := Step(r, Finish(c, false));
    assert u.rows == WithoutSession(s.rows, KeyOf(x)) by { DeletesWhatWasRead(s.rows, KeyOf(x)); }
  }

  lemma Finishes(s: State, c: Consumer, b: Batch)
    requires c in s.inFlight && s.inFlight[c] == b && b.rows != []
    ensures Step(s, Finish(c, false)) ==
      s.(rows := WithoutUpTo(s.rows, KeyOf(b.session), Max(b)), inFlight := s.inFlight - {c},
         returned := s.returned + [Sending(b, [])])
  {
  }

  /** A Save that goes through, with its key free, is stored as it was given, under the next ordinal. */
  lemma SaveStores(s: State, x: Session, at: int, payload: Payload, expires: int)
    requires Key(KeyOf(x), at) !in s.rows
    ensures var t := Step(s, Save(x, at, payload, expires, false));
      && t.rows == s.rows[Key(KeyOf(x), at) := Saved(|s.saved|, payload, expires)]
      && t.saved == s.saved + [Record(x, at, payload, expires)]
  {
  }

  // ----- Messages a socket did not take -----

  /** Another copy of the message: a row, a read, another write, or a reason for having none. */
  ghost predicate OtherCopy(s: State, i: nat, id: nat)
    requires CanSend(s, i)
  {
    || Stored(s, id) || InHand(s, id) || id in s.expired || id in s.outdated
    || (exists k :: 0 <= k < |s.returned| && k != i && Carries(s.returned[k], id))
    || (exists j :: 0 <= j < |s.returned[i].batch.rows| && j != |s.returned[i].results|
          && s.returned[i].batch.rows[j].value.id == id && !FailedAt(s.returned[i], j))
  }

  lemma FailedSendStep(s: State, i: nat)
    requires CanSend(s, i)
    ensures var id := s.returned[i].batch.rows[|s.returned[i].results|].value.id;
      Accounted(Step(s, SendDirect(i, false)), id) <==> OtherCopy(s, i, id)
  {
    var t := Step(s, SendDirect(i, false));
    var n := |s.returned[i].results|;
    var id := s.returned[i].batch.rows[n].value.id;
    assert t.rows == s.rows && t.inFlight == s.inFlight && t.expired == s.expired && t.outdated == s.outdated;
    assert forall k | 0 <= k < |s.returned| && k != i :: t.returned[k] == s.returned[k];
    assert t.returned[i].batch == s.returned[i].batch;
    assert forall j :: FailedAt(t.returned[i], j) <==> j == n || FailedAt(s.returned[i], j);
  }

  /**
   Consume deletes before the write. After any run, a write that fails loses its message for
   good, in every continuation, exactly if there is no other copy of it: in particular
   whenever the delete had gone through and nobody else had read the row.
   */
  lemma FailedWriteLosesExactly(es: seq<Event>, i: nat)
    requires CanSend(After(es), i)
    ensures var s := After(es);
      var id := s.returned[i].batch.rows[|s.returned[i].results|].value.id;
      (forall gs: seq<Event> :: !Accounted(Exec(Step, Step(s, SendDirect(i, false)), gs), id)) <==> !OtherCopy(s, i, id)
  {
    OnlySavedInOrder(es);
    var s := After(es);
    var t := Step(s, SendDirect(i, false));
    var n := |s.returned[i].results|;
    var id := s.returned[i].batch.rows[n].value.id;
    FailedSendStep(s, i);
    StepKeepsIntegrity(s, SendDirect(i, false));
    assert GenuineBatch(s, s.returned[i].batch) && Genuine(s, KeyOf(s.returned[i].batch.session), s.returned[i].batch.rows[n]);
    if OtherCopy(s, i, id) {
      assert Exec(Step, t, []) == t;
    } else {
      forall gs: seq<Event> ensures !Accounted(Exec(Step, t, gs), id) { GoneForever(t, id, gs); }
    }
  }

  // ----- When steps are safe -----

  /** A time above every time already saved under the key makes a Save safe in any reachable state. */
  lemma IncreasingStampsAreSafe(es: seq<Event>, e: Event)
    requires e.Save?
    requires forall i | 0 <= i < |After(es).saved| && KeyOf(After(es).saved[i].session) == KeyOf(e.session) ::
      After(es).saved[i].sendAt < e.sendAt
    ensures Safe(After(es), e)
  {
    OnlySavedInOrder(es);
    var s := After(es);
    var at := Key(KeyOf(e.session), e.sendAt);
    assert at in s.rows ==> Genuine(s, at.session, Row(at.sendAt, s.rows[at]));
    forall c | c in s.inFlight && KeyOf(s.inFlight[c].session) == KeyOf(e.session) ensures Max(s.inFlight[c]) < e.sendAt {
      var b := s.inFlight[c];
      assert GenuineBatch(s, b) && Genuine(s, KeyOf(b.session), b.rows[|b.rows| - 1]);
    }
  }

  /** No row of the session waits to be read. */
  ghost predicate AllRead(s: State, x: Session) {
    forall k | k in s.rows && k.session == KeyOf(x) :: Seen(s, s.rows[k].id)
  }

  /**
   Where no other session shares its key, an expiry call is safe exactly if its
   registration is in force or nothing of the session waits to be read: a superseded timer
   loses whatever has been buffered since.
   */
  lemma ExpirySafeExactlyIfCurrent(es: seq<Event>, g: Absence)
    requires var s := After(es);
      Due(s, g) && forall i | 0 <= i < |s.saved| && KeyOf(s.saved[i].session) == KeyOf(s.absences[g]) ::
        s.saved[i].session == s.absences[g]
    ensures Safe(After(es), Expire(g, false)) <==> Current(After(es), g) || AllRead(After(es), After(es).absences[g])
  {
    OnlySavedInOrder(es);
    var s := After(es);
    forall k | k in s.rows && k.session == KeyOf(s.absences[g]) ensures Own(s, s.rows[k], s.absences[g]) {
      assert Genuine(s, k.session, Row(k.sendAt, s.rows[k]));
    }
  }

  // ----- Runs that lose a message -----

  /**
   The clock is read before the row is written, so even one shared clock does not help: a
   Save stamped 1 that reaches the table after a Save stamped 2 was read is deleted unread.
   */
  lemma LateInsertIsLost(x: Session)
    ensures var s := After([Save(x, 2, [], 0, false), Read(0, x, false), Save(x, 1, [], 0, false), Finish(0, false)]);
      |s.saved| == 2 && !Accounted(s, 1)
  {
    Exec4(Step, INIT, Save(x, 2, [], 0, false), Read(0, x, false), Save(x, 1, [], 0, false), Finish(0, false));
    ReadOne(x, x, 2);
    LateInsertDeleted(x);
  }

  function OneRead(a: Session, b: Session, at: int): State {
    State(map[Key(KeyOf(a), at) := Saved(0, [], 0)], map[0 := Batch(b, [Row(at, Saved(0, [], 0))])],
          [Record(a, at, [], 0)], [], [], map[], {}, {}, {}, {})
  }

  lemma ReadOne(a: Session, b: Session, at: int)
    requires KeyOf(a) == KeyOf(b)
    ensures Step(Step(INIT, Save(a, at, [], 0, false)), Read(0, b, false)) == OneRead(a, b, at)
  {
    QueryOne(KeyOf(a), at, Saved(0, [], 0));
    assert Step(INIT, Save(a, at, [], 0, false)).rows == map[Key(KeyOf(a), at) := Saved(0, [], 0)];
  }

  lemma LateInsertDeleted(x: Session)
    ensures var s := Step(Step(OneRead(x, x, 2), Save(x, 1, [], 0, false)), Finish(0, false));
      && |s.saved| == 2 && s.rows == map[] && s.inFlight == map[] && s.expired == {} && s.outdated == {}
      && s.returned == [Sending(Batch(x, [Row(2, Saved(0, [], 0))]), [])]
  {
    var s3 := Step(OneRead(x, x, 2), Save(x, 1, [], 0, false));
    assert s3.rows == map[Key(KeyOf(x), 2) := Saved(0, [], 0), Key(KeyOf(x), 1) := Saved(1, [], 0)];
    assert Max(s3.inFlight[0]) == 2;
  }

  /** A consumed message whose write fails is gone, although everything at the table went well. */
  lemma FailedWriteIsLost(x: Session)
    ensures var s := After([Save(x, 1, [], 0, false), Read(0, x, false), Finish(0, false), SendDirect(0, false)]);
      |s.saved| == 1 && !Accounted(s, 0) && WriteFailed(s, 0)
  {
    Exec4(Step, INIT, Save(x, 1, [], 0, false), Read(0, x, false), Finish(0, false), SendDirect(0, false));
    ReadOne(x, x, 1);
    var s := FinishOne(x);
    SendFails(s, x);
  }

  lemma SendFails(s: State, x: Session)
    requires s.rows == map[] && s.inFlight == map[] && s.expired == {} && s.outdated == {}
    requires s.returned == [Sending(Batch(x, [Row(1, Saved(0, [], 0))]), [])]
    ensures var t := Step(s, SendDirect(0, false)); t.saved == s.saved && !Accounted(t, 0) && WriteFailed(t, 0)
  {
    var t := Step(s, SendDirect(0, false));
    var p := t.returned[0];
    assert t.returned == [p] && p.batch == Batch(x, [Row(1, Saved(0, [], 0))]) && p.results == [false];
    assert p.batch.rows[0].value.id == 0 && FailedAt(p, 0);
    assert Failing(p, 0);
  }

  lemma FinishOne(x: Session) returns (s: State)
    ensures s == Step(OneRead(x, x, 1), Finish(0, false))
    ensures s.rows == map[] && s.inFlight == map[] && s.expired == {} && s.outdated == {} && |s.saved| == 1
    ensures s.returned == [Sending(Batch(x, [Row(1, Saved(0, [], 0))]), [])]
  {
    assert Max(OneRead(x, x, 1).inFlight[0]) == 1;
    s := Step(OneRead(x, x, 1), Finish(0, false));
  }

  /**
   The timer of a session's first absence, still running when the session is away for the
   second time, deletes what was buffered for the second.
   */
  lemma StaleExpiryIsLost(x: Session)
    ensures var s := After([Disconnect(x), Reconnect(x), Disconnect(x), Save(x, 1, [], 0, false)] + [Expire(0, false)]);
      |s.saved| == 1 && x in s.away && s.away[x] == 1 && !Accounted(s, 0)
  {
    var es := [Disconnect(x), Reconnect(x), Disconnect(x), Save(x, 1, [], 0, false)];
    Exec4(Step, INIT, Disconnect(x), Reconnect(x), Disconnect(x), Save(x, 1, [], 0, false));
    Snoc(Step, INIT, es, Expire(0, false));
    var s := After(es);
    assert s.absences == [x, x] && s.away[x] == 1 && s.rows == map[Key(KeyOf(x), 1) := Saved(0, [], 0)];
    assert Step(s, Expire(0, false)).rows == map[];
  }
}
