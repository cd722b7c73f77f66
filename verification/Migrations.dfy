/** Loading and selecting schema migrations. */
module MigrationList {
  import opened Common

  datatype Migration = Migration(version: int, name: string, sql: string)

  datatype LoadError = NoVersion(file: string) | VersionTooLarge(file: string) | Duplicate(version: int)

  /** Go's int on 64-bit targets. */
  const MAX_INT := 0x7FFF_FFFF_FFFF_FFFF

  predicate IsDigit(c: char) { '0' <= c <= '9' }

  /** What the pattern ^(\d+) captures, or nothing. */
  function LeadingDigits(name: string): string {
    if name == [] || !IsDigit(name[0]) then [] else [name[0]] + LeadingDigits(name[1..])
  }

  function Value(digits: string): (n: nat)
    requires forall i | 0 <= i < |digits| :: IsDigit(digits[i])
  {
    if digits == [] then 0
    else
      var last := digits[|digits| - 1];
      assert IsDigit(last);
      Value(digits[..|digits| - 1]) * 10 + (last as int - '0' as int)
  }

  lemma {:induction false} LeadingDigitsAreDigits(name: string)
    ensures forall i | 0 <= i < |LeadingDigits(name)| :: IsDigit(LeadingDigits(name)[i])
    ensures LeadingDigits(name) <= name
  {
    if name != [] && IsDigit(name[0]) {
      LeadingDigitsAreDigits(name[1..]);
    }
  }

  function ParseVersion(name: string): (r: Result<int, LoadError>)
    ensures r.Success? ==> 0 <= r.value <= MAX_INT
    ensures r == Failure(NoVersion(name)) <==> name == [] || !IsDigit(name[0])
  {
    LeadingDigitsAreDigits(name);
    var digits := LeadingDigits(name);
    if digits == [] then Failure(NoVersion(name))
    else if Value(digits) > MAX_INT then Failure(VersionTooLarge(name))
    else Success(Value(digits))
  }

  /** The decimal numeral of a number, without leading zeros. */
  function Decimal(n: nat): string {
    (if n < 10 then [] else Decimal(n / 10)) + [('0' as int + n % 10) as char]
  }

  function Zeros(k: nat): string { seq(k, _ => '0') }

  predicate AllDigits(s: string) { forall i | 0 <= i < |s| :: IsDigit(s[i]) }

  lemma ValueSnoc(digits: string, c: char)
    requires AllDigits(digits) && IsDigit(c)
    ensures AllDigits(digits + [c]) && Value(digits + [c]) == Value(digits) * 10 + (c as int - '0' as int)
  {
    assert (digits + [c])[..|digits|] == digits;
  }

  /** Leading zeros do not count: a padded numeral has the value of its number. */
  lemma {:induction false} ValueOfNumeral(k: nat, n: nat)
    ensures AllDigits(Zeros(k) + Decimal(n)) && Value(Zeros(k) + Decimal(n)) == n
  {
    var c := ('0' as int + n % 10) as char;
    var front := Zeros(k) + (if n < 10 then [] else Decimal(n / 10));
    assert Zeros(k) + Decimal(n) == front + [c];
    if n < 10 {
      assert front == Zeros(k);
      ValueOfZeros(k);
    } else {
      ValueOfNumeral(k, n / 10);
    }
    ValueSnoc(front, c);
  }

  lemma {:induction false} ValueOfZeros(k: nat)
    ensures AllDigits(Zeros(k)) && Value(Zeros(k)) == 0
  {
    if k == 0 {
    } else {
      ValueOfZeros(k - 1);
      ValueSnoc(Zeros(k - 1), '0');
      assert Zeros(k) == Zeros(k - 1) + ['0'];
    }
  }

  /** Every string of digits is the padded numeral of its value. */
  lemma {:induction false} DigitsAreNumeral(digits: string) returns (k: nat)
    requires AllDigits(digits) && digits != []
    ensures digits == Zeros(k) + Decimal(Value(digits))
  {
    var front, c := digits[..|digits| - 1], digits[|digits| - 1];
    assert digits == front + [c];
    if front == [] {
      k := 0;
    } else {
      var j := DigitsAreNumeral(front);
      if Value(front) == 0 {
        k := j + 1;
        assert Zeros(j) + ['0'] == Zeros(j + 1);
      } else {
        k := j;
        Assoc(Zeros(j), Decimal(Value(front)), [c]);
      }
    }
  }

  lemma {:induction false} LeadingDigitsOf(digits: string, rest: string)
    requires AllDigits(digits) && (rest == [] || !IsDigit(rest[0]))
    ensures LeadingDigits(digits + rest) == digits
  {
    if digits == [] {
      assert digits + rest == rest;
    } else {
      LeadingDigitsOf(digits[1..], rest);
      assert (digits + rest)[1..] == digits[1..] + rest;
    }
  }

  /** A name that starts with a numeral, padded or not, has that number as its version, or is too large. */
  lemma ParsesNumeral(k: nat, n: nat, rest: string)
    requires rest == [] || !IsDigit(rest[0])
    ensures var name := Zeros(k) + Decimal(n) + rest;
      ParseVersion(name) == if n <= MAX_INT then Success(n) else Failure(VersionTooLarge(name))
  {
    ValueOfNumeral(k, n);
    LeadingDigitsOf(Zeros(k) + Decimal(n), rest);
  }

  /** And every name with a version starts so. */
  lemma VersionIsNumeral(name: string) returns (k: nat, rest: string)
    requires ParseVersion(name).Success?
    ensures name == Zeros(k) + Decimal(ParseVersion(name).value) + rest && (rest == [] || !IsDigit(rest[0]))
  {
    LeadingDigitsAreDigits(name);
    var digits := LeadingDigits(name);
    k := DigitsAreNumeral(digits);
    rest := name[|digits|..];
    assert name == digits + rest;
    EndsOfDigits(name);
  }

  lemma {:induction false} EndsOfDigits(name: string)
    ensures var n := |LeadingDigits(name)|; n <= |name| && (n < |name| ==> !IsDigit(name[n]))
  {
    if name != [] && IsDigit(name[0]) {
      EndsOfDigits(name[1..]);
    }
  }

  ghost predicate Ascending(ms: seq<Migration>) {
    forall i, j | 0 <= i < j < |ms| :: ms[i].version < ms[j].version
  }

  /** The migration of a file that has a version. */
  function FromFile(file: (string, string)): Migration
    requires ParseVersion(file.0).Success?
  {
    Migration(ParseVersion(file.0).value, file.0, file.1)
  }

  ghost predicate Loadable(files: seq<(string, string)>) {
    && (forall i | 0 <= i < |files| :: ParseVersion(files[i].0).Success?)
    && (forall i, j | 0 <= i < j < |files| :: ParseVersion(files[i].0).value != ParseVersion(files[j].0).value)
  }

  /**
   All: reads every file, rejects a name without a version and a version seen before,
   and sorts. It succeeds exactly on loadable files, with each of them once, ascending.
   */
  method All(files: seq<(string, string)>) returns (r: Result<seq<Migration>, LoadError>)
    ensures r.Success? <==> Loadable(files)
    ensures r.Success? ==> Ascending(r.value) && |r.value| == |files|
    ensures r.Success? ==> forall i | 0 <= i < |files| :: FromFile(files[i]) in r.value
  {
    var loaded: seq<Migration> := [];
    var seen: map<int, string> := map[];
    for i := 0 to |files|
      invariant Loadable(files[..i]) && |loaded| == i
      invariant forall k | 0 <= k < i :: loaded[k] == FromFile(files[k])
      invariant forall v :: v in seen <==> exists k :: 0 <= k < i && loaded[k].version == v
    {
      var version := ParseVersion(files[i].0);
      if version.Failure? {
        return Failure(version.error);
      }
      if version.value in seen {
        return Failure(Duplicate(version.value));
      }
      seen := seen[version.value := files[i].0];
      loaded := loaded + [FromFile(files[i])];
    }
    assert files[..|files|] == files;
    var sorted := SortByVersion(loaded);
    return Success(sorted);
  }

  /** Insertion into an ascending list, for a version it does not hold. */
  function Insert(ms: seq<Migration>, m: Migration): (r: seq<Migration>)
    requires Ascending(ms) && forall i | 0 <= i < |ms| :: ms[i].version != m.version
    ensures Ascending(r) && |r| == |ms| + 1
    ensures forall x :: x in r <==> x == m || x in ms
  {
    if ms == [] then [m]
    else
      var last := ms[|ms| - 1];
      if last.version < m.version then
        ms + [m]
      else
        var front := Insert(ms[..|ms| - 1], m);
        assert forall x | x in front :: x.version < last.version;
        front + [last]
  }

  method SortByVersion(ms: seq<Migration>) returns (r: seq<Migration>)
    requires forall i, j | 0 <= i < j < |ms| :: ms[i].version != ms[j].version
    ensures Ascending(r) && |r| == |ms|
    ensures forall x :: x in r <==> x in ms
  {
    r := [];
    for i := 0 to |ms|
      invariant Ascending(r) && |r| == i
      invariant forall x :: x in r <==> x in ms[..i]
    {
      forall k | 0 <= k < |r| ensures r[k].version != ms[i].version {
        assert r[k] in ms[..i];
      }
      r := Insert(r, ms[i]);
      assert ms[..i + 1] == ms[..i] + [ms[i]];
    }
    assert ms[..|ms|] == ms;
  }

  /** The migrations after version `current` and up to `latest`. */
  function Select(ms: seq<Migration>, current: int, latest: int): seq<Migration> {
    if ms == [] then []
    else
      var m := ms[|ms| - 1];
      Select(ms[..|ms| - 1], current, latest) + if current < m.version <= latest then [m] else []
  }

  /** The migrations a schema at version `v` should have had. */
  function Due(ms: seq<Migration>, v: int): seq<Migration> {
    if ms == [] then []
    else
      var m := ms[|ms| - 1];
      Due(ms[..|ms| - 1], v) + if m.version <= v then [m] else []
  }

  method SelectMigrations(ms: seq<Migration>, current: int, latest: int) returns (selected: seq<Migration>)
    ensures selected == Select(ms, current, latest)
  {
    selected := [];
    for i := 0 to |ms|
      invariant selected == Select(ms[..i], current, latest)
    {
      if ms[i].version > current && ms[i].version <= latest {
        selected := selected + [ms[i]];
      }
      assert ms[..i + 1][..i] == ms[..i];
    }
    assert ms[..|ms|] == ms;
  }

  /** A selection is exactly the migrations in the range, in their order. */
  lemma {:induction false} SelectIsRange(ms: seq<Migration>, current: int, latest: int, m: Migration)
    requires Ascending(ms)
    ensures m in Select(ms, current, latest) <==> m in ms && current < m.version <= latest
    ensures Ascending(Select(ms, current, latest))
  {
    if ms == [] {
    } else {
      var front, last := ms[..|ms| - 1], ms[|ms| - 1];
      SelectIsRange(front, current, latest, m);
      SelectIsRange(front, current, latest, last);
      assert ms == front + [last];
      SelectWithin(front, current, latest);
      var chosen := Select(front, current, latest);
      forall i | 0 <= i < |chosen| ensures chosen[i].version < last.version { assert chosen[i] in chosen; }
    }
  }

  lemma {:induction false} SelectWithin(ms: seq<Migration>, current: int, latest: int)
    ensures forall x | x in Select(ms, current, latest) :: x in ms
  {
    if ms == [] {
    } else {
      SelectWithin(ms[..|ms| - 1], current, latest);
    }
  }

  /** The version a release with the first `n` migrations brings the schema to. */
  function Latest(ms: seq<Migration>, n: nat): int
    requires n <= |ms|
  {
    if n == 0 then 0 else ms[n - 1].version
  }

  lemma {:induction false} SelectNothing(ms: seq<Migration>, current: int, latest: int)
    requires forall i | 0 <= i < |ms| :: ms[i].version <= current || latest < ms[i].version
    ensures Select(ms, current, latest) == []
  {
    if ms == [] {
    } else {
      SelectNothing(ms[..|ms| - 1], current, latest);
    }
  }

  /** Selecting (a, b] and then (b, c] is selecting (a, c]. */
  lemma {:induction false} SelectInStages(ms: seq<Migration>, a: int, b: int, c: int)
    requires Ascending(ms) && a <= b <= c
    ensures Select(ms, a, b) + Select(ms, b, c) == Select(ms, a, c)
  {
    if ms == [] {
    } else {
      var front, m := ms[..|ms| - 1], ms[|ms| - 1];
      SelectInStages(front, a, b, c);
      if m.version <= b {
        SelectNothing(front, b, c);
        SelectNothing(ms, b, c);
        assert Select(front, a, b) + [] == Select(front, a, b);
      } else {
        Assoc(Select(front, a, b), Select(front, b, c), if b < m.version <= c then [m] else []);
        assert Select(ms, a, b) == Select(front, a, b);
      }
    }
  }

  /** A schema that has what is due at `a` and gets (a, b] has what is due at `b`. */
  lemma {:induction false} DueInStages(ms: seq<Migration>, a: int, b: int)
    requires Ascending(ms) && a <= b
    ensures Due(ms, a) + Select(ms, a, b) == Due(ms, b)
  {
    if ms == [] {
    } else {
      var front, m := ms[..|ms| - 1], ms[|ms| - 1];
      DueInStages(front, a, b);
      if m.version <= a {
        SelectNothing(front, a, b);
        SelectNothing(ms, a, b);
        assert Due(front, a) + [] == Due(front, a);
      } else {
        Assoc(Due(front, a), Select(front, a, b), if a < m.version <= b then [m] else []);
        assert Due(ms, a) == Due(front, a);
      }
    }
  }

  /** A release selects the same from its own list as from any longer one. */
  lemma {:induction false} SelectFromPrefix(ms: seq<Migration>, n: nat, a: int)
    requires Ascending(ms) && n <= |ms| && (n == 0 ==> a >= 0)
    ensures Select(ms[..n], a, Latest(ms, n)) == Select(ms, a, Latest(ms, n))
  {
    if n == |ms| {
      assert ms[..n] == ms;
    } else {
      var front := ms[..|ms| - 1];
      SelectFromPrefix(front, n, a);
      assert front[..n] == ms[..n];
    }
  }

  lemma {:induction false} DueAll(ms: seq<Migration>, v: int)
    requires forall i | 0 <= i < |ms| :: ms[i].version <= v
    ensures Due(ms, v) == ms
  {
    if ms == [] {
    } else {
      DueAll(ms[..|ms| - 1], v);
    }
  }

  /** What is due at a release's version is that release's list, if versions are positive. */
  lemma {:induction false} DueIsPrefix(ms: seq<Migration>, n: nat)
    requires Ascending(ms) && n <= |ms| && (ms != [] ==> ms[0].version > 0)
    ensures Due(ms, Latest(ms, n)) == ms[..n]
  {
    if n == |ms| {
      DueAll(ms, Latest(ms, n));
      assert ms[..n] == ms;
    } else {
      var front := ms[..|ms| - 1];
      assert ms[|ms| - 1].version > Latest(ms, n);
      DueIsPrefix(front, n);
      assert front[..n] == ms[..n];
    }
  }
}

/**
 Replicas of different releases migrating one database. A release's list is a prefix of
 `master`: each release extends the one before with higher versions. A transaction's
 effects appear at its commit; the version row serialises them.
 */
module MigrationRuns {
  import opened Common
  import opened Runs
  import opened MigrationList

  type Replica = nat

  /**
   Before the insert; insert found a row; holding the row, having read the version `read`
   and executed `ran` of `todo`.
   */
  datatype Phase = Begun | Conflicted | Applying(read: Option<int>, todo: seq<Migration>, ran: nat)

  datatype Txn = Txn(release: nat, phase: Phase)

  datatype State = State(
    master: seq<Migration>,
    version: Option<int>,          // the committed schema_version row
    applied: seq<Migration>,       // committed migrations, in order
    lock: Option<Replica>,         // who holds the row
    txns: map<Replica, Txn>)

  datatype Event =
    | Begin(replica: Replica, release: nat)
    | InsertRow(replica: Replica)
    | LockRow(replica: Replica)
    | RunOne(replica: Replica)
    | Commit(replica: Replica)
    | Fail(replica: Replica)

  function Init(master: seq<Migration>): State { State(master, None, [], None, map[]) }

  function List(s: State, r: Replica): seq<Migration>
    requires r in s.txns
  {
    if s.txns[r].release <= |s.master| then s.master[..s.txns[r].release] else s.master
  }

  function Target(s: State, r: Replica): int
    requires r in s.txns
  {
    var ms := List(s, r);
    if ms == [] then 0 else ms[|ms| - 1].version
  }

  function To(s: State, r: Replica, p: Phase): State
    requires r in s.txns
  {
    s.(txns := s.txns[r := s.txns[r].(phase := p)])
  }

  predicate At(s: State, r: Replica, p: Phase) { r in s.txns && s.txns[r].phase == p }

  /** Ends a transaction, giving back the row if it held it. */
  function End(s: State, r: Replica): State {
    s.(txns := s.txns - {r}, lock := if s.lock == Some(r) then None else s.lock)
  }

  function DoBegin(s: State, r: Replica, release: nat): State {
    if r in s.txns then s else s.(txns := s.txns[r := Txn(release, Begun)])
  }

  function TryInsert(s: State, r: Replica): State {
    if !At(s, r, Begun) then s
    else if s.version.Some? then To(s, r, Conflicted)
    else if s.lock.Some? then s  // waits for the other insert to commit or roll back
    else To(s, r, Applying(None, List(s, r), 0)).(lock := Some(r))
  }

  function TryLock(s: State, r: Replica): State {
    if !At(s, r, Conflicted) || s.lock.Some? || s.version.None? then s
    else
      var current := s.version.value;
      if current > Target(s, r) then End(s, r)        // database is newer: an error
      else if current == Target(s, r) then End(s, r)  // nothing to do
      else To(s, r, Applying(Some(current), Select(List(s, r), current, Target(s, r)), 0)).(lock := Some(r))
  }

  function DoRun(s: State, r: Replica): State {
    if r in s.txns && s.txns[r].phase.Applying? && s.txns[r].phase.ran < |s.txns[r].phase.todo| then
      To(s, r, s.txns[r].phase.(ran := s.txns[r].phase.ran + 1))
    else s
  }

  function DoCommit(s: State, r: Replica): State {
    if r in s.txns && s.txns[r].phase.Applying? && s.txns[r].phase.ran == |s.txns[r].phase.todo| then
      // the update is conditional on the version read, and must match the one row
      if s.txns[r].phase.read != s.version then End(s, r)
      else End(s, r).(version := Some(Target(s, r)), applied := s.applied + s.txns[r].phase.todo)
    else s
  }

  function Step(s: State, e: Event): State {
    match e
    case Begin(r, n) => DoBegin(s, r, n)
    case InsertRow(r) => TryInsert(s, r)
    case LockRow(r) => TryLock(s, r)
    case RunOne(r) => DoRun(s, r)
    case Commit(r) => DoCommit(s, r)
    case Fail(r) => End(s, r)
  }

  ghost function After(master: seq<Migration>, es: seq<Event>): State { Exec(Step, Init(master), es) }

  /** Replica `r` holds the row, and is applying what the schema lacks. */
  ghost predicate Holds(s: State, r: Replica)
    requires r in s.txns && s.txns[r].phase.Applying?
  {
    && s.lock == Some(r) && s.txns[r].phase.read == s.version
    && s.txns[r].phase.todo == (if s.version.None? then List(s, r) else Select(List(s, r), s.version.value, Target(s, r)))
    && (s.version.Some? ==> s.version.value < Target(s, r))
  }

  /** Only the holder of the row applies migrations. */
  ghost predicate Exclusive(s: State) {
    && (forall r | r in s.txns && s.txns[r].phase.Applying? :: Holds(s, r))
    && (s.lock.Some? ==> s.lock.value in s.txns && s.txns[s.lock.value].phase.Applying?)
  }

  ghost predicate UpToDate(s: State) {
    && (s.version.None? ==> s.applied == [])
    && (s.version.Some? ==> s.version.value >= 0 && s.applied == Due(s.master, s.version.value))
  }

  ghost predicate Inv(s: State, master: seq<Migration>) {
    s.master == master && Exclusive(s) && UpToDate(s)
  }

  /** Versions of a release chain: ascending, and positive. */
  ghost predicate Sound(master: seq<Migration>) {
    Ascending(master) && (master != [] ==> master[0].version > 0)
  }

  lemma CommitCompletes(s: State, r: Replica)
    requires Exclusive(s) && UpToDate(s) && Sound(s.master)
    requires r in s.txns && s.txns[r].phase.Applying?
    ensures var target := Target(s, r);
      target >= 0 && s.applied + s.txns[r].phase.todo == Due(s.master, target)
  {
    var ms := s.master;
    var n := if s.txns[r].release <= |ms| then s.txns[r].release else |ms|;
    assert List(s, r) == ms[..n] && Target(s, r) == Latest(ms, n);
    if s.version.None? {
      DueIsPrefix(ms, n);
    } else {
      SelectFromPrefix(ms, n, s.version.value);
      DueInStages(ms, s.version.value, Latest(ms, n));
    }
  }

  lemma InsertKeeps(s: State, r: Replica, master: seq<Migration>)
    requires Inv(s, master)
    ensures Inv(TryInsert(s, r), master)
  {
  }

  lemma LockKeeps(s: State, r: Replica, master: seq<Migration>)
    requires Inv(s, master)
    ensures Inv(TryLock(s, r), master)
  {
  }

  lemma CommitsKeep(s: State, r: Replica, master: seq<Migration>)
    requires Inv(s, master) && Sound(master)
    ensures Inv(DoCommit(s, r), master)
  {
    if r in s.txns && s.txns[r].phase.Applying? {
      CommitCompletes(s, r);
    }
  }

  lemma BeginKeeps(s: State, r: Replica, release: nat, master: seq<Migration>)
    requires Inv(s, master)
    ensures Inv(DoBegin(s, r, release), master)
  {
  }

  lemma RunKeeps(s: State, r: Replica, master: seq<Migration>)
    requires Inv(s, master)
    ensures Inv(DoRun(s, r), master)
  {
    var t := DoRun(s, r);
    forall x | x in t.txns && t.txns[x].phase.Applying? ensures Holds(t, x) {
      assert Holds(s, x) && t.txns[x].release == s.txns[x].release;
    }
  }

  lemma EndKeeps(s: State, r: Replica, master: seq<Migration>)
    requires Inv(s, master)
    ensures Inv(End(s, r), master)
  {
  }

  lemma StepKeeps(s: State, e: Event, master: seq<Migration>)
    requires Inv(s, master) && Sound(master)
    ensures Inv(Step(s, e), master)
  {
    match e
    case InsertRow(r) => InsertKeeps(s, r, master);
    case LockRow(r) => LockKeeps(s, r, master);
    case Commit(r) => CommitsKeep(s, r, master);
    case Begin(r, n) => BeginKeeps(s, r, n, master);
    case RunOne(r) => RunKeeps(s, r, master);
    case Fail(r) => EndKeeps(s, r, master);
  }

  lemma InvAfter(master: seq<Migration>, es: seq<Event>)
    requires Sound(master)
    ensures Inv(After(master, es), master)
  {
    var inv := (s: State) => Inv(s, master);
    forall s, e | inv(s) ensures inv(Step(s, e)) { StepKeeps(s, e, master); }
    Invariant(Step, inv, Init(master), es);
  }

  /** Committed migrations are exactly those the version row promises. */
  ghost predicate Agrees(s: State) {
    s.applied == if s.version.None? then [] else Due(s.master, s.version.value)
  }

  /**
   Exactly once: over every run of racing replicas of any releases, with transactions
   failing anywhere, the committed migrations are those with a version up to the version
   row, each once, ascending. This holds for a release chain exactly if its versions are
   positive: a release without migrations records version 0, and hides a migration 0.
   */
  lemma AppliedExactlyOnce(master: seq<Migration>)
    requires Ascending(master) && (master != [] ==> master[0].version >= 0)
    ensures (forall es: seq<Event> :: Agrees(After(master, es))) <==> (master != [] ==> master[0].version > 0)
  {
    if master != [] ==> master[0].version > 0 {
      forall es: seq<Event> ensures Agrees(After(master, es)) { InvAfter(master, es); }
    } else {
      var es := [Begin(0, 0), InsertRow(0), Commit(0)];
      ExecThree(Step, Init(master), Begin(0, 0), InsertRow(0), Commit(0));
      var s := After(master, es);
      assert s.version == Some(0) && s.applied == [];
      assert Due(master, 0) != [] by { DueHasFirst(master); }
      assert !Agrees(After(master, es));
    }
  }

  lemma {:induction false} DueHasFirst(ms: seq<Migration>)
    requires ms != [] && ms[0].version == 0
    ensures Due(ms, 0) != []
  {
    if |ms| > 1 {
      DueHasFirst(ms[..|ms| - 1]);
    }
  }

  /** The order and uniqueness that "exactly once" means: what is due is a prefix of the chain ... */
  lemma {:induction false} DueIsAscending(ms: seq<Migration>, v: int)
    requires Ascending(ms)
    ensures Due(ms, v) <= ms && Ascending(Due(ms, v))
  {
    if ms == [] {
    } else {
      var front, m := ms[..|ms| - 1], ms[|ms| - 1];
      DueIsAscending(front, v);
      if m.version <= v {
        DueAll(front, v);
        assert Due(ms, v) == ms;
      }
    }
  }

  /** ... and holds every migration up to the version. */
  lemma {:induction false} DueIsUpTo(ms: seq<Migration>, v: int, m: Migration)
    ensures m in Due(ms, v) <==> m in ms && m.version <= v
  {
    if ms == [] {
    } else {
      var front, last := ms[..|ms| - 1], ms[|ms| - 1];
      DueIsUpTo(front, v, m);
      assert ms == front + [last];
    }
  }

  /** At most one replica is ever applying migrations, and its update still matches the version it read. */
  lemma OneAtATime(master: seq<Migration>, es: seq<Event>, r1: Replica, r2: Replica)
    requires Sound(master)
    requires var s := After(master, es);
      r1 in s.txns && s.txns[r1].phase.Applying? && r2 in s.txns && s.txns[r2].phase.Applying?
    ensures r1 == r2 && After(master, es).txns[r1].phase.read == After(master, es).version
  {
    InvAfter(master, es);
  }

  // ----- What a replica does -----

  /** The list and the target of a release: the first migrations of the chain, and the last one's version. */
  lemma ReleaseIsPrefix(s: State, r: Replica, n: nat)
    requires r in s.txns && s.txns[r].release == n <= |s.master|
    ensures List(s, r) == s.master[..n] && Target(s, r) == if n == 0 then 0 else s.master[n - 1].version
  {
  }

  function RunAll(r: Replica, n: nat): seq<Event> { seq(n, _ => RunOne(r)) }

  lemma {:induction false} RunsAll(s: State, r: Replica, n: nat)
    requires r in s.txns && s.txns[r].phase.Applying? && s.txns[r].phase.ran == 0 && n <= |s.txns[r].phase.todo|
    ensures Exec(Step, s, RunAll(r, n)) == To(s, r, s.txns[r].phase.(ran := n))
  {
    if n == 0 {
      assert s.txns[r := s.txns[r]] == s.txns;
    } else {
      RunsAll(s, r, n - 1);
      assert RunAll(r, n) == RunAll(r, n - 1) + [RunOne(r)];
      Snoc(Step, s, RunAll(r, n - 1), RunOne(r));
      RunsOne(s, r, n - 1);
    }
  }

  lemma RunsOne(s: State, r: Replica, n: nat)
    requires r in s.txns && s.txns[r].phase.Applying? && n < |s.txns[r].phase.todo|
    ensures Step(To(s, r, s.txns[r].phase.(ran := n)), RunOne(r)) == To(s, r, s.txns[r].phase.(ran := n + 1))
  {
  }

  /** From the moment a replica holds the row, running its list and committing brings the schema to its target. */
  lemma ApplyingCompletes(master: seq<Migration>, s: State, r: Replica)
    requires Sound(master) && Inv(s, master) && r in s.txns && s.txns[r].phase.Applying? && s.txns[r].phase.ran == 0
    ensures var t := Exec(Step, s, RunAll(r, |s.txns[r].phase.todo|) + [Commit(r)]);
      && t.version == Some(Target(s, r)) && t.applied == Due(master, Target(s, r))
      && t.lock == None && t.txns == s.txns - {r} && t.master == master
  {
    var n := |s.txns[r].phase.todo|;
    RunsAll(s, r, n);
    Snoc(Step, s, RunAll(r, n), Commit(r));
    CommitCompletes(s, r);
    CommitsAll(s, r);
  }

  lemma CommitsAll(s: State, r: Replica)
    requires r in s.txns && s.txns[r].phase.Applying? && s.txns[r].phase.read == s.version && s.lock == Some(r)
    ensures var t := Step(To(s, r, s.txns[r].phase.(ran := |s.txns[r].phase.todo|)), Commit(r));
      && t.version == Some(Target(s, r)) && t.applied == s.applied + s.txns[r].phase.todo
      && t.lock == None && t.txns == s.txns - {r} && t.master == s.master
  {
    var u := To(s, r, s.txns[r].phase.(ran := |s.txns[r].phase.todo|));
    assert List(u, r) == List(s, r) && u.txns - {r} == s.txns - {r};
  }

  /**
   An existing database is brought up to date: after any run, a replica that found a row, of a
   version below its own release's, takes the row, runs the migrations between the two, and
   commits; the schema then has exactly what is due at its target.
   */
  lemma UpgradeCompletes(master: seq<Migration>, es: seq<Event>, r: Replica)
    requires Sound(master)
    requires var s := After(master, es);
      At(s, r, Conflicted) && s.lock == None && s.version.Some? && s.version.value < Target(s, r)
    ensures var s := After(master, es);
      var n := |Select(List(s, r), s.version.value, Target(s, r))|;
      var t := After(master, es + [LockRow(r)] + (RunAll(r, n) + [Commit(r)]));
      t.version == Some(Target(s, r)) && t.applied == Due(master, Target(s, r)) && t.lock == None && r !in t.txns
  {
    InvAfter(master, es);
    var s := After(master, es);
    var n := |Select(List(s, r), s.version.value, Target(s, r))|;
    Snoc(Step, Init(master), es, LockRow(r));
    var u := After(master, es + [LockRow(r)]);
    LockKeeps(s, r, master);
    assert List(u, r) == List(s, r) && Target(u, r) == Target(s, r);
    Concat(Step, Init(master), es + [LockRow(r)], RunAll(r, n) + [Commit(r)]);
    ApplyingCompletes(master, u, r);
  }

  /** A new database is set up: the first replica to insert the row runs its whole list and commits. */
  lemma BootstrapCompletes(master: seq<Migration>, es: seq<Event>, r: Replica)
    requires Sound(master)
    requires var s := After(master, es); At(s, r, Begun) && s.lock == None && s.version.None?
    ensures var s := After(master, es);
      var t := After(master, es + [InsertRow(r)] + (RunAll(r, |List(s, r)|) + [Commit(r)]));
      t.version == Some(Target(s, r)) && t.applied == Due(master, Target(s, r)) && t.lock == None && r !in t.txns
  {
    InvAfter(master, es);
    var s := After(master, es);
    Snoc(Step, Init(master), es, InsertRow(r));
    var u := After(master, es + [InsertRow(r)]);
    InsertKeeps(s, r, master);
    assert List(u, r) == List(s, r) && Target(u, r) == Target(s, r);
    Concat(Step, Init(master), es + [InsertRow(r)], RunAll(r, |List(s, r)|) + [Commit(r)]);
    ApplyingCompletes(master, u, r);
  }

  /** A replica starts with nothing done; one that finds a row goes on to lock it; one that finds an uncommitted row waits. */
  lemma FindsRow(master: seq<Migration>, es: seq<Event>, r: Replica, n: nat)
    requires r !in After(master, es).txns
    ensures var s := After(master, es);
      var t := After(master, es + [Begin(r, n)]);
      && t == s.(txns := s.txns[r := Txn(n, Begun)])
      && (s.version.Some? ==> At(Step(t, InsertRow(r)), r, Conflicted) && Step(t, InsertRow(r)).lock == s.lock)
      && (s.version.None? && s.lock.Some? ==> Step(t, InsertRow(r)) == t)
  {
    Snoc(Step, Init(master), es, Begin(r, n));
  }

  /** A release that is not newer than the schema leaves version and migrations alone, and gives up the transaction. */
  lemma OlderReleaseChangesNothing(master: seq<Migration>, es: seq<Event>, r: Replica)
    requires var s := After(master, es);
      At(s, r, Conflicted) && s.lock == None && s.version.Some? && s.version.value >= Target(s, r)
    ensures var s, t := After(master, es), After(master, es + [LockRow(r)]);
      t == s.(txns := s.txns - {r})
  {
    Snoc(Step, Init(master), es, LockRow(r));
  }

  /** A replica whose row is held by another waits. */
  lemma HeldRowIsWaitedFor(s: State, r: Replica)
    requires At(s, r, Conflicted) && s.lock.Some?
    ensures Step(s, LockRow(r)) == s
  {
  }

  /** A failing transaction leaves version and migrations alone, and frees the row if it held it. */
  lemma FailureRollsBack(master: seq<Migration>, es: seq<Event>, r: Replica)
    ensures var s, t := After(master, es), After(master, es + [Fail(r)]);
      && t.version == s.version && t.applied == s.applied && t.txns == s.txns - {r}
      && (s.lock == Some(r) ==> t.lock == None) && (s.lock != Some(r) ==> t.lock == s.lock)
  {
    Snoc(Step, Init(master), es, Fail(r));
  }

  /** A transaction commits only after its last migration, and runs none after it. */
  lemma NoEarlyCommit(s: State, r: Replica)
    requires r in s.txns && s.txns[r].phase.Applying?
    ensures s.txns[r].phase.ran < |s.txns[r].phase.todo| ==> Step(s, Commit(r)) == s
    ensures s.txns[r].phase.ran == |s.txns[r].phase.todo| ==> Step(s, RunOne(r)) == s
  {
  }
}
