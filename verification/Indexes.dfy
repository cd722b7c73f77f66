/** The connection manager: a two-level map that stands for a flat one. */
module ConnectionIndex {
  import opened Common
  import opened Sessions
  import TwoLevel

  datatype Connection = Connection(auth: Session, id: nat)

  class ConnectionManager {
    var userConn: TwoLevel.Nested<Id, Connection>
    var anonymousConn: map<Id, Connection>

    /** The flat map: the connection of a session, if it has one. */
    ghost function Live(a: Session): Option<Connection>
      reads this
    {
      if Anonymous(a) then
        if a.instance in anonymousConn then Some(anonymousConn[a.instance]) else None
      else TwoLevel.Find(userConn, a.user, a.instance)
    }

    /** No user is left with an empty map, and connections are filed under their own session. */
    ghost predicate Valid()
      reads this
    {
      && NO_USER !in userConn
      && TwoLevel.NoEmptyBucket(userConn)
      && OwnSession(userConn)
      && (forall i | i in anonymousConn :: anonymousConn[i].auth == Session(NO_USER, i))
    }

    constructor ()
      ensures Valid() && forall a :: Live(a) == None
    {
      userConn, anonymousConn := map[], map[];
    }

    method AddConnection(c: Connection)
      requires Valid()
      modifies this
      ensures Valid()
      ensures forall a :: Live(a) == if a == c.auth then Some(c) else old(Live(a))
    {
      if Anonymous(c.auth) {
        anonymousConn := anonymousConn[c.auth.instance := c];
        return;
      }
      var m: map<Id, Connection> := map[];
      if c.auth.user in userConn {
        m := userConn[c.auth.user];
      }
      userConn := userConn[c.auth.user := m[c.auth.instance := c]];
      Filed(old(userConn), c.auth, Some(c), userConn);
    }

    method RemoveConnection(auth: Session)
      requires Valid()
      modifies this
      ensures Valid()
      ensures forall a :: Live(a) == if a == auth then None else old(Live(a))
    {
      if Anonymous(auth) {
        anonymousConn := anonymousConn - {auth.instance};
        return;
      }
      DropUserConn(auth.user, auth.instance);
      Filed(old(userConn), auth, None, userConn);
    }

    /** The authenticated half of RemoveConnection. */
    method DropUserConn(userId: Id, instanceId: Id)
      modifies this`userConn
      ensures userConn == TwoLevel.Drop(old(userConn), userId, instanceId)
    {
      if userId in userConn {
        TwoLevel.DropBySize(userConn, userId, instanceId);
        var m := userConn[userId] - {instanceId};
        userConn := userConn[userId := m];
        if |m| == 0 {
          userConn := userConn - {userId};
        }
      }
    }

    method GetConnection(auth: Session) returns (c: Option<Connection>)
      requires Valid()
      ensures c == Live(auth)
    {
      if Anonymous(auth) {
        return if auth.instance in anonymousConn then Some(anonymousConn[auth.instance]) else None;
      }
      if auth.user in userConn {
        var m := userConn[auth.user];
        return if auth.instance in m then Some(m[auth.instance]) else None;
      }
      return None;
    }

    /** The values of one bucket, each once. */
    static method Collect(m: map<Id, Connection>) returns (r: seq<Connection>)
      requires forall i, j | i in m && j in m && i != j :: m[i] != m[j]
      ensures forall c :: c in r <==> exists i :: i in m && m[i] == c
      ensures NoRepeats(r)
    {
      r := [];
      var left := m.Keys;
      while left != {}
        invariant left <= m.Keys
        invariant forall c :: c in r <==> exists i :: i in m && i !in left && m[i] == c
        invariant NoRepeats(r)
        decreases |left|
      {
        var i :| i in left;
        assert m[i] !in r;
        r := r + [m[i]];
        left := left - {i};
      }
    }

    method GetAllUserConn(userId: Id) returns (r: seq<Connection>)
      requires Valid()
      ensures forall c :: c in r <==> Live(c.auth) == Some(c) && c.auth.user == userId && userId != NO_USER
      ensures NoRepeats(r)
    {
      if userId !in userConn {
        return [];
      }
      forall i | i in userConn[userId] ensures userConn[userId][i].auth == Session(userId, i) {
        assert TwoLevel.Find(userConn, userId, i).Some?;
      }
      r := Collect(userConn[userId]);
    }

    method GetAllAnonymousConn() returns (r: seq<Connection>)
      requires Valid()
      ensures forall c :: c in r <==> Live(c.auth) == Some(c) && Anonymous(c.auth)
      ensures NoRepeats(r)
    {
      r := Collect(anonymousConn);
    }

    method GetAllAuthenticatedConn() returns (r: seq<Connection>)
      requires Valid()
      ensures forall c :: c in r <==> Live(c.auth) == Some(c) && !Anonymous(c.auth)
      ensures NoRepeats(r)
    {
      r := [];
      var users := userConn.Keys;
      while users != {}
        invariant users <= userConn.Keys
        invariant forall c :: c in r <==> Live(c.auth) == Some(c) && !Anonymous(c.auth) && c.auth.user !in users
        invariant NoRepeats(r)
        decreases |users|
      {
        var u :| u in users;
        var conns := GetAllUserConn(u);
        r := r + conns;
        users := users - {u};
      }
    }

    /** Every live connection, exactly once. */
    method GetAllConnections() returns (r: seq<Connection>)
      requires Valid()
      ensures forall c :: c in r <==> Live(c.auth) == Some(c)
      ensures NoRepeats(r)
    {
      var users := GetAllAuthenticatedConn();
      var anonymous := GetAllAnonymousConn();
      r := users + anonymous;
    }
  }

  ghost predicate OwnSession(m: TwoLevel.Nested<Id, Connection>) {
    forall u, i :: TwoLevel.Find(m, u, i).Some? ==> TwoLevel.Find(m, u, i).value.auth == Session(u, i)
  }

  /** Adding or removing one session's connection keeps the filing and moves the flat map at that session. */
  lemma Filed(m: TwoLevel.Nested<Id, Connection>, a: Session, c: Option<Connection>, m': TwoLevel.Nested<Id, Connection>)
    requires OwnSession(m) && TwoLevel.NoEmptyBucket(m) && NO_USER !in m && !Anonymous(a)
    requires c.Some? ==> c.value.auth == a && m' == TwoLevel.Put(m, a.user, a.instance, c.value)
    requires c.None? ==> m' == TwoLevel.Drop(m, a.user, a.instance)
    ensures OwnSession(m') && TwoLevel.NoEmptyBucket(m') && NO_USER !in m'
    ensures forall u, i :: TwoLevel.Find(m', u, i) == if Session(u, i) == a then c else TwoLevel.Find(m, u, i)
  {
    forall u, i ensures TwoLevel.Find(m', u, i) == if Session(u, i) == a then c else TwoLevel.Find(m, u, i) {
      if c.Some? {
        TwoLevel.FindPut(m, a.user, a.instance, c.value, u, i);
      } else {
        TwoLevel.FindDrop(m, a.user, a.instance, u, i);
      }
    }
    if c.Some? {
      TwoLevel.FindPut(m, a.user, a.instance, c.value, NO_USER, NO_USER);
    } else {
      TwoLevel.FindDrop(m, a.user, a.instance, NO_USER, NO_USER);
    }
  }

  ghost predicate NoRepeats(r: seq<Connection>) {
    forall i, j | 0 <= i < j < |r| :: r[i] != r[j]
  }
}

/** The rate limiter's tables: one limiter per user while the user has sessions, one per anonymous session. */
module LimiterIndex {
  import Ascent
  import opened Sessions

  /** A token bucket; its arithmetic is not modelled, its identity is. */
  class Limiter {
    constructor () {}
  }

  /** Who shares a limiter. */
  predicate SameOwner(a: Session, b: Session) {
    a.user == b.user && (Anonymous(a) ==> a.instance == b.instance)
  }

  class RateLimiter {
    var userLimiter: map<Id, Limiter>
    var userSessions: map<Id, set<Id>>
    var anonymousLimiter: map<Id, Limiter>

    /** A user has a limiter exactly while its session set is there, and that set is never empty. */
    ghost predicate Valid()
      reads this
    {
      && userLimiter.Keys == userSessions.Keys
      && NO_USER !in userSessions
      && forall u | u in userSessions :: userSessions[u] != {}
    }

    /** The sessions on file. */
    ghost predicate Registered(a: Session)
      reads this
    {
      if Anonymous(a) then a.instance in anonymousLimiter
      else a.user in userSessions && a.instance in userSessions[a.user]
    }

    ghost function LimiterOf(a: Session): Limiter?
      reads this
    {
      if Anonymous(a) then
        if a.instance in anonymousLimiter then anonymousLimiter[a.instance] else null
      else if a.user in userLimiter then userLimiter[a.user] else null
    }

    constructor ()
      ensures Valid() && forall a :: !Registered(a)
    {
      userLimiter, userSessions, anonymousLimiter := map[], map[], map[];
    }

    /**
     Registers a session. Its owner keeps the limiter it has, or gets a new one; nobody
     else's changes; registering twice is registering once.
     */
    method New(auth: Session) returns (lim: Limiter)
      requires Valid()
      modifies this
      ensures Valid()
      ensures forall a :: Registered(a) <==> a == auth || old(Registered(a))
      ensures old(LimiterOf(auth)) != null ==> lim == old(LimiterOf(auth))
      ensures old(LimiterOf(auth)) == null ==> fresh(lim)
      ensures forall a :: LimiterOf(a) == if SameOwner(a, auth) then lim else old(LimiterOf(a))
    {
      if Anonymous(auth) {
        if auth.instance in anonymousLimiter {
          return anonymousLimiter[auth.instance];
        }
        lim := new Limiter();
        anonymousLimiter := anonymousLimiter[auth.instance := lim];
        return lim;
      }
      if auth.user in userLimiter {
        lim := userLimiter[auth.user];
      } else {
        lim := new Limiter();
        userLimiter := userLimiter[auth.user := lim];
      }
      var sessions: set<Id> := {};
      if auth.user in userSessions {
        sessions := userSessions[auth.user];
      }
      sessions := sessions + {auth.instance};
      userSessions := userSessions[auth.user := sessions];
    }

    /** Takes a session out; its owner's limiter goes with the last session, and stays the same till then. */
    method Remove(auth: Session)
      requires Valid()
      modifies this
      ensures Valid()
      ensures forall a :: Registered(a) <==> a != auth && old(Registered(a))
      ensures forall a | !SameOwner(a, auth) :: LimiterOf(a) == old(LimiterOf(a))
      ensures LimiterOf(auth) == old(LimiterOf(auth)) || LimiterOf(auth) == null
      ensures LimiterOf(auth) != null <==> exists a :: SameOwner(a, auth) && Registered(a)
    {
      if Anonymous(auth) {
        anonymousLimiter := anonymousLimiter - {auth.instance};
        return;
      }
      if auth.user !in userSessions {
        return;
      }
      var sessions := userSessions[auth.user] - {auth.instance};
      userSessions := userSessions[auth.user := sessions];
      if |sessions| == 0 {
        userSessions := userSessions - {auth.user};
        userLimiter := userLimiter - {auth.user};
      }
      if sessions != {} {
        var i :| i in sessions;
        assert Registered(Session(auth.user, i));
      }
    }

    /** The owner's limiter; a session whose owner has none is registered on the way. */
    method Get(auth: Session) returns (lim: Limiter)
      requires Valid()
      modifies this
      ensures Valid() && lim == LimiterOf(auth)
      ensures old(LimiterOf(auth)) != null ==> lim == old(LimiterOf(auth))
      ensures forall a :: Registered(a) <==> old(Registered(a)) || (a == auth && old(LimiterOf(auth)) == null)
    {
      if Anonymous(auth) {
        if auth.instance in anonymousLimiter {
          return anonymousLimiter[auth.instance];
        }
      } else if auth.user in userLimiter {
        return userLimiter[auth.user];
      }
      lim := New(auth);
    }

    /** In every state a session's owner has a limiter exactly while some session of it is on file. */
    lemma LimiterWhileSessions(a: Session)
      requires Valid()
      ensures LimiterOf(a) != null <==> exists b :: SameOwner(a, b) && Registered(b)
    {
      if !Anonymous(a) && a.user in userSessions {
        var i := Ascent.Pick(userSessions[a.user]);
        assert SameOwner(a, Session(a.user, i)) && Registered(Session(a.user, i));
      } else if Anonymous(a) && a.instance in anonymousLimiter {
        assert SameOwner(a, a) && Registered(a);
      }
    }
  }
}
