/** The queue monitor's edge-triggered actions on the health flag, and its thresholds. */
module HealthMonitor {
  import opened Common
  import opened Runs

  datatype Change = Change(healthy: bool, reason: string)

  class Healthy {
    var isHealthy: bool
    var history: seq<Change>

    constructor ()
      ensures !isHealthy && history == []
    {
      isHealthy, history := false, [];
    }

    method SetHealthy(reason: string)
      modifies this
      ensures isHealthy
      ensures history == if old(isHealthy) then old(history) else old(history) + [Change(true, reason)]
    {
      if !isHealthy {
        isHealthy := true;
        history := history + [Change(true, reason)];
      }
    }

    method SetUnhealthy(reason: string)
      modifies this
      ensures !isHealthy
      ensures history == if old(isHealthy) then old(history) + [Change(false, reason)] else old(history)
    {
      if isHealthy {
        isHealthy := false;
        history := history + [Change(false, reason)];
      }
    }

    /** The history is the flag's changes, alternating, and ends in the flag's present value. */
    ghost predicate Alternating()
      reads this
    {
      && (forall i | 0 <= i < |history| - 1 :: history[i].healthy != history[i + 1].healthy)
      && (history != [] ==> history[|history| - 1].healthy == isHealthy)
    }

    /**
     The monitor loop among others that set the flag: after every event the flag is what the
     run of the events so far gives, and the history goes on alternating.
     */
    method MonitorQueue(events: seq<Event>, upper: int, lower: int) returns (flags: seq<bool>)
      requires Alternating()
      modifies this
      ensures |flags| == |events|
      ensures forall i | 0 <= i < |events| :: flags[i] == After(old(isHealthy), upper, lower, events[..i + 1]).flag
      ensures isHealthy == After(old(isHealthy), upper, lower, events).flag
      ensures Alternating() && old(history) <= history
    {
      var wasAboveUpper, wasBelowLower := false, false;
      flags := [];
      for i := 0 to |events|
        invariant |flags| == i
        invariant forall k | 0 <= k < i :: flags[k] == After(old(isHealthy), upper, lower, events[..k + 1]).flag
        invariant Monitor(upper, lower, isHealthy, wasAboveUpper, wasBelowLower)
          == After(old(isHealthy), upper, lower, events[..i])
        invariant Alternating() && old(history) <= history
      {
        wasAboveUpper, wasBelowLower := OnEvent(events[i], upper, lower, wasAboveUpper, wasBelowLower);
        flags := flags + [isHealthy];
        Snoc(Step, Init(old(isHealthy), upper, lower), events[..i], events[i]);
        assert events[..i + 1] == events[..i] + [events[i]];
      }
      assert events[..|events|] == events;
    }

    /** One round of the loop, or one action of someone else. */
    method OnEvent(e: Event, upper: int, lower: int, wasAboveUpper: bool, wasBelowLower: bool)
      returns (isAboveUpper: bool, isBelowLower: bool)
      requires Alternating()
      modifies this
      ensures Monitor(upper, lower, isHealthy, isAboveUpper, isBelowLower)
        == Step(Monitor(upper, lower, old(isHealthy), wasAboveUpper, wasBelowLower), e)
      ensures Alternating() && old(history) <= history
    {
      match e {
        case Write(healthy) =>
          isAboveUpper, isBelowLower := wasAboveUpper, wasBelowLower;
          if healthy {
            SetHealthy("Elsewhere");
          } else {
            SetUnhealthy("Elsewhere");
          }
        case Tick(queueLen) =>
          isAboveUpper := queueLen > upper;
          if isAboveUpper && !wasAboveUpper {
            SetUnhealthy("Worker pool is over upper threshold");
          }
          isBelowLower := queueLen < lower;
          if isBelowLower && !wasBelowLower {
            SetHealthy("Worker pool is below lower threshold");
          }
      }
    }
  }

  /** A sample of the queue's length, or the flag set by someone else. */
  datatype Event = Tick(length: int) | Write(healthy: bool)

  /** The monitor's memory together with the flag it drives. */
  datatype Monitor = Monitor(upper: int, lower: int, flag: bool, wasAbove: bool, wasBelow: bool)

  function Init(flag: bool, upper: int, lower: int): Monitor { Monitor(upper, lower, flag, false, false) }

  function Step(m: Monitor, e: Event): Monitor {
    match e
    case Write(healthy) => m.(flag := healthy)
    case Tick(n) =>
      var above, below := n > m.upper, n < m.lower;
      var flag := if above && !m.wasAbove then false else m.flag;
      m.(flag := if below && !m.wasBelow then true else flag, wasAbove := above, wasBelow := below)
  }

  ghost function After(flag: bool, upper: int, lower: int, es: seq<Event>): Monitor {
    Exec(Step, Init(flag, upper, lower), es)
  }

  // ----- Acting on the level instead: unhealthy above, healthy below, unchanged between -----

  function Level(flag: bool, length: int, upper: int, lower: int): bool {
    if length > upper then false else if length < lower then true else flag
  }

  function Leveled(flag: bool, upper: int, lower: int, es: seq<Event>): bool {
    if es == [] then flag
    else
      match es[|es| - 1]
      case Write(healthy) => healthy
      case Tick(n) => Level(Leveled(flag, upper, lower, es[..|es| - 1]), n, upper, lower)
  }

  // ----- What a history says, without the monitor's memory -----

  /** The last length sampled. */
  function Last(es: seq<Event>): Option<int> {
    if es == [] then None
    else if es[|es| - 1].Tick? then Some(es[|es| - 1].length)
    else Last(es[..|es| - 1])
  }

  predicate LastAbove(es: seq<Event>, upper: int) { Last(es).Some? && Last(es).value > upper }

  predicate LastBelow(es: seq<Event>, lower: int) { Last(es).Some? && Last(es).value < lower }

  /** What the flag was set by last. */
  datatype Cause = Initially | Elsewhere(healthy: bool) | CrossedUp | CrossedDown

  function CauseOf(es: seq<Event>, upper: int, lower: int): Cause {
    if es == [] then Initially
    else
      var front := es[..|es| - 1];
      match es[|es| - 1]
      case Write(healthy) => Elsewhere(healthy)
      case Tick(n) =>
        if n > upper && !LastAbove(front, upper) then CrossedUp
        else if n < lower && !LastBelow(front, lower) then CrossedDown
        else CauseOf(front, upper, lower)
  }

  function ValueOf(c: Cause, flag: bool): bool {
    match c
    case Initially => flag
    case Elsewhere(healthy) => healthy
    case CrossedUp => false
    case CrossedDown => true
  }

  /** Since the queue crossed to the side it is on, someone else was the last to set the flag, the other way. */
  predicate Overridden(es: seq<Event>, e: Event, upper: int, lower: int) {
    && e.Tick?
    && ((e.length > upper && LastAbove(es, upper) && CauseOf(es, upper, lower) == Elsewhere(true))
        || (e.length < lower && LastBelow(es, lower) && CauseOf(es, upper, lower) == Elsewhere(false)))
  }

  /** The monitor's memory is the last sample, its flag the last cause, and a side is entered by a crossing. */
  lemma {:induction false} MemoryIsHistory(flag: bool, upper: int, lower: int, es: seq<Event>)
    requires lower < upper
    ensures var m := After(flag, upper, lower, es);
      && m.upper == upper && m.lower == lower
      && m.wasAbove == LastAbove(es, upper) && m.wasBelow == LastBelow(es, lower)
      && m.flag == ValueOf(CauseOf(es, upper, lower), flag)
    ensures LastAbove(es, upper) ==> CauseOf(es, upper, lower).Elsewhere? || CauseOf(es, upper, lower) == CrossedUp
    ensures LastBelow(es, lower) ==> CauseOf(es, upper, lower).Elsewhere? || CauseOf(es, upper, lower) == CrossedDown
  {
    if es == [] {
    } else {
      MemoryIsHistory(flag, upper, lower, es[..|es| - 1]);
    }
  }

  /** A tick leaves the flag where the level wants it exactly unless the flag has been overridden since the crossing. */
  lemma TickIsLevelUnlessOverridden(flag: bool, upper: int, lower: int, es: seq<Event>, n: int)
    requires lower < upper
    ensures var before, after := After(flag, upper, lower, es).flag, After(flag, upper, lower, es + [Tick(n)]).flag;
      after == Level(before, n, upper, lower) <==> !Overridden(es, Tick(n), upper, lower)
  {
    MemoryIsHistory(flag, upper, lower, es);
    Snoc(Step, Init(flag, upper, lower), es, Tick(n));
  }

  ghost predicate NeverOverridden(es: seq<Event>, upper: int, lower: int) {
    forall i | 0 <= i < |es| :: !Overridden(es[..i], es[i], upper, lower)
  }

  ghost predicate AlwaysLevel(flag: bool, upper: int, lower: int, es: seq<Event>) {
    forall i | 0 <= i <= |es| :: After(flag, upper, lower, es[..i]).flag == Leveled(flag, upper, lower, es[..i])
  }

  /**
   Acting only on crossings keeps the flag where acting on the level would keep it, all
   along a run with any other writers, exactly if no tick of the run meets an overridden flag.
   */
  lemma {:induction false} EdgesAreLevelsExactly(flag: bool, upper: int, lower: int, es: seq<Event>)
    requires lower < upper
    ensures AlwaysLevel(flag, upper, lower, es) <==> NeverOverridden(es, upper, lower)
  {
    if es == [] {
      assert es[..0] == [];
    } else {
      var front, e := es[..|es| - 1], es[|es| - 1];
      EdgesAreLevelsExactly(flag, upper, lower, front);
      assert front + [e] == es;
      PrefixesAgree(flag, upper, lower, front, e);
      assert front[..|front|] == front;
      if e.Tick? {
        TickIsLevelUnlessOverridden(flag, upper, lower, front, e.length);
      }
    }
  }

  lemma PrefixesAgree(flag: bool, upper: int, lower: int, es: seq<Event>, e: Event)
    ensures var all := es + [e];
      AlwaysLevel(flag, upper, lower, all) <==>
        (AlwaysLevel(flag, upper, lower, es) && After(flag, upper, lower, all).flag == Leveled(flag, upper, lower, all))
    ensures NeverOverridden(es + [e], upper, lower) <==>
      (NeverOverridden(es, upper, lower) && !Overridden(es, e, upper, lower))
  {
    var all := es + [e];
    assert all[..|all|] == all && all[..|es|] == es && all[|es|] == e;
    assert forall i | 0 <= i <= |es| :: all[..i] == es[..i];
    assert forall i | 0 <= i < |es| :: all[i] == es[i];
  }

  /** With nobody else writing, the edge-triggered monitor is the level-triggered one. */
  lemma AloneIsLevel(flag: bool, upper: int, lower: int, es: seq<Event>)
    requires lower < upper && forall i | 0 <= i < |es| :: es[i].Tick?
    ensures AlwaysLevel(flag, upper, lower, es)
  {
    forall i | 0 <= i < |es| ensures !Overridden(es[..i], es[i], upper, lower) {
      NobodyElse(es[..i], upper, lower);
    }
    EdgesAreLevelsExactly(flag, upper, lower, es);
  }

  lemma {:induction false} NobodyElse(es: seq<Event>, upper: int, lower: int)
    requires forall i | 0 <= i < |es| :: es[i].Tick?
    ensures !CauseOf(es, upper, lower).Elsewhere?
  {
    if es == [] {
    } else {
      NobodyElse(es[..|es| - 1], upper, lower);
    }
  }

  /** The exception happens: set unhealthy from elsewhere below the threshold, the flag stays so there. */
  lemma OverrideIsMissed(flag: bool, upper: int, lower: int, n: int)
    requires n < lower < upper
    ensures !After(flag, upper, lower, [Tick(n), Write(false), Tick(n)]).flag
    ensures Leveled(flag, upper, lower, [Tick(n), Write(false), Tick(n)])
  {
    ExecThree(Step, Init(flag, upper, lower), Tick(n), Write(false), Tick(n));
  }

  // ----- A container that is shutting down -----

  /** The queue drops below the lower threshold afresh. */
  predicate DropsBelow(es: seq<Event>, e: Event, lower: int) {
    e.Tick? && e.length < lower && !LastBelow(es, lower)
  }

  ghost predicate NeverDropsBelow(es: seq<Event>, fs: seq<Event>, lower: int) {
    forall i | 0 <= i < |fs| :: !DropsBelow(es + fs[..i], fs[i], lower)
  }

  ghost predicate StaysUnhealthy(flag: bool, upper: int, lower: int, es: seq<Event>, fs: seq<Event>) {
    forall i | 0 <= i <= |fs| :: !After(flag, upper, lower, es + fs[..i]).flag
  }

  lemma HealthyExactlyIfDrops(flag: bool, upper: int, lower: int, es: seq<Event>, n: int)
    requires lower < upper && !After(flag, upper, lower, es).flag
    ensures After(flag, upper, lower, es + [Tick(n)]).flag <==> DropsBelow(es, Tick(n), lower)
  {
    MemoryIsHistory(flag, upper, lower, es);
    Snoc(Step, Init(flag, upper, lower), es, Tick(n));
  }

  /**
   A flag taken down stays down, with nobody but the monitor at work, exactly until the
   queue drops below the lower threshold afresh: the monitor then declares a container
   healthy that is shutting down.
   */
  lemma {:induction false} ShutdownStaysUnhealthyExactly(flag: bool, upper: int, lower: int, es: seq<Event>, fs: seq<Event>)
    requires lower < upper && forall i | 0 <= i < |fs| :: fs[i].Tick?
    requires !After(flag, upper, lower, es).flag
    ensures StaysUnhealthy(flag, upper, lower, es, fs) <==> NeverDropsBelow(es, fs, lower)
  {
    if fs == [] {
      assert es + fs[..0] == es;
    } else {
      var front, e := fs[..|fs| - 1], fs[|fs| - 1];
      ShutdownStaysUnhealthyExactly(flag, upper, lower, es, front);
      assert front + [e] == fs && e == Tick(e.length);
      LastOfRun(flag, upper, lower, es, front, e);
      Assoc(es, front, [e]);
      if StaysUnhealthy(flag, upper, lower, es, front) {
        HealthyExactlyIfDrops(flag, upper, lower, es + front, e.length);
      }
    }
  }

  lemma LastOfRun(flag: bool, upper: int, lower: int, es: seq<Event>, fs: seq<Event>, e: Event)
    ensures StaysUnhealthy(flag, upper, lower, es, fs + [e]) <==>
      (StaysUnhealthy(flag, upper, lower, es, fs) && !After(flag, upper, lower, es + (fs + [e])).flag)
    ensures StaysUnhealthy(flag, upper, lower, es, fs) ==> !After(flag, upper, lower, es + fs).flag
    ensures NeverDropsBelow(es, fs + [e], lower) <==> (NeverDropsBelow(es, fs, lower) && !DropsBelow(es + fs, e, lower))
  {
    var all := fs + [e];
    assert all[..|all|] == all && all[..|fs|] == fs == fs[..|fs|] && all[|fs|] == e;
    assert forall i | 0 <= i <= |fs| :: all[..i] == fs[..i];
    assert forall i | 0 <= i < |fs| :: all[i] == fs[i];
  }

  /** It happens: the first sample after Shutdown's write is below the threshold. */
  lemma ShutdownIsUndone(flag: bool, upper: int, lower: int, n: int)
    requires n < lower < upper
    ensures !After(flag, upper, lower, [Write(false)]).flag && After(flag, upper, lower, [Write(false)] + [Tick(n)]).flag
  {
    Snoc(Step, Init(flag, upper, lower), [], Write(false));
    assert [] + [Write(false)] == [Write(false)];
    Snoc(Step, Init(flag, upper, lower), [Write(false)], Tick(n));
  }

  class WorkerPoolConfig {
    var workers: int
    var buffer: int
    var upperThreshold: int
    var lowerThreshold: int

    /** What validate accepts without a panic. */
    predicate Validates()
      reads this
    {
      && workers >= 0
      && buffer > 0
      && upperThreshold > 0
      && lowerThreshold >= 0
      && upperThreshold > lowerThreshold
    }

    /** False where the checks, in their order, end in a panic. */
    method Validate() returns (ok: bool)
      ensures ok <==> Validates()
    {
      if workers < 0 || buffer <= 0 {
        return false;
      }
      if upperThreshold <= 0 || lowerThreshold < 0 {
        return false;
      }
      return upperThreshold > lowerThreshold;
    }

    /**
     Fills in the zero fields. The result validates exactly when nothing was negative:
     the defaults never spoil a configuration and never repair a negative one.
     */
    method LoadDefault()
      modifies this
      ensures workers == old(workers)
      ensures buffer == if old(buffer) == 0 then 4096 else old(buffer)
      ensures old(upperThreshold) != 0 ==> upperThreshold == old(upperThreshold)
      ensures Validates() <==> old(workers >= 0 && buffer >= 0 && upperThreshold >= 0 && lowerThreshold >= 0)
      ensures Validates() && old(upperThreshold) == 0 ==>
        (4 * upperThreshold <= 3 * buffer < 4 * upperThreshold + 4) || (buffer == upperThreshold == 1)
      ensures Validates() ==>
        var asked := if old(lowerThreshold) > 0 then old(lowerThreshold) else buffer / 4;
        lowerThreshold == if asked < upperThreshold then asked else upperThreshold - 1
    {
      if buffer == 0 {
        buffer := 4096;
      }
      if upperThreshold == 0 {
        var share := GoDiv(buffer * 3, 4);
        upperThreshold := if share > 1 then share else 1;
      }
      if lowerThreshold == 0 {
        lowerThreshold := GoDiv(buffer, 4);
      }
      if upperThreshold <= lowerThreshold {
        lowerThreshold := upperThreshold - 1;
      }
    }
  }

  /** Division of Go integers, which truncates toward zero. */
  function GoDiv(a: int, b: int): int
    requires b > 0
  {
    if a >= 0 then a / b else -((-a) / b)
  }
}

/**
 Setters of the health flag racing each other: loading the flag, storing it and appending to
 the history are separate steps of a call, and no lock is held.
 */
module HealthRaces {
  import opened Runs

  type CallId = nat

  /** Before the load; past it with the flag to change; flag stored, history to come; over. */
  datatype Stage = Entered | Loaded | Stored | Left

  datatype Setter = Setter(healthy: bool, stage: Stage)

  datatype State = State(flag: bool, history: seq<bool>, setters: map<CallId, Setter>)

  datatype Event =
    | Enter(id: CallId, healthy: bool)
    | Load(id: CallId)
    | Store(id: CallId)
    | Append(id: CallId)

  function Init(flag: bool): State { State(flag, [], map[]) }

  predicate At(s: State, k: CallId, stage: Stage) { k in s.setters && s.setters[k].stage == stage }

  function Move(s: State, k: CallId, stage: Stage): State
    requires k in s.setters
  {
    s.(setters := s.setters[k := s.setters[k].(stage := stage)])
  }

  function Step(s: State, e: Event): State {
    match e
    case Enter(k, healthy) => if k in s.setters then s else s.(setters := s.setters[k := Setter(healthy, Entered)])
    case Load(k) =>
      if !At(s, k, Entered) then s
      else Move(s, k, if s.flag == s.setters[k].healthy then Left else Loaded)
    case Store(k) => if !At(s, k, Loaded) then s else Move(s, k, Stored).(flag := s.setters[k].healthy)
    case Append(k) => if !At(s, k, Stored) then s else Move(s, k, Left).(history := s.history + [s.setters[k].healthy])
  }

  ghost function After(flag: bool, es: seq<Event>): State { Exec(Step, Init(flag), es) }

  /** Past its load, and not through. */
  predicate Inside(s: State, k: CallId) { At(s, k, Loaded) || At(s, k, Stored) }

  ghost predicate Quiet(s: State) { forall k :: !Inside(s, k) }

  ghost predicate Alternates(h: seq<bool>) { forall i | 0 <= i < |h| - 1 :: h[i] != h[i + 1] }

  /** The history alternates, and with nobody inside a setter it ends in the flag. */
  ghost predicate Tidy(s: State) {
    Alternates(s.history) && (Quiet(s) && s.history != [] ==> s.history[|s.history| - 1] == s.flag)
  }

  /** The event: a call finds the flag to be changed while another one is inside. */
  ghost predicate Overlaps(s: State, e: Event) {
    e.Load? && At(s, e.id, Entered) && s.flag != s.setters[e.id].healthy && exists j :: Inside(s, j)
  }

  /** The history ends in `b`, or is empty. */
  predicate EndsIn(s: State, b: bool) { s.history == [] || s.history[|s.history| - 1] == b }

  /** One call at most is inside, and the history lags behind the flag by that call's own change. */
  ghost predicate OneInside(s: State) {
    && Alternates(s.history)
    && (forall j, k | Inside(s, j) && Inside(s, k) :: j == k)
    && (Quiet(s) ==> EndsIn(s, s.flag))
    && (forall k | Inside(s, k) :: Lags(s, s.setters[k]))
  }

  predicate Lags(s: State, c: Setter) {
    if c.stage == Loaded then c.healthy != s.flag && EndsIn(s, s.flag) else c.healthy == s.flag && EndsIn(s, !s.flag)
  }

  lemma OneInsideKept(s: State, e: Event)
    requires OneInside(s) && !Overlaps(s, e)
    ensures OneInside(Step(s, e))
  {
    var t := Step(s, e);
    forall k | Inside(t, k) ensures Inside(s, k) || (e.Load? && e.id == k) {}
    forall k | Inside(s, k) && !(e.Append? && e.id == k) ensures Inside(t, k) {}
    if t == s {
    } else if e.Append? && At(s, e.id, Stored) {
      assert Inside(s, e.id);
      assert Quiet(t);
    } else if e.Load? && At(s, e.id, Entered) && s.flag != s.setters[e.id].healthy {
      assert Quiet(s) && Inside(t, e.id);
    } else if e.Store? && At(s, e.id, Loaded) {
      assert Inside(s, e.id) && Inside(t, e.id);
      forall k | Inside(t, k) ensures k == e.id { assert Inside(s, k); }
    }
  }

  lemma OneInsideAfter(flag: bool, es: seq<Event>)
    requires !Ever(Step, Init(flag), es, Overlaps)
    ensures OneInside(After(flag, es))
  {
    forall s, e | OneInside(s) && !Overlaps(s, e) ensures OneInside(Step(s, e)) { OneInsideKept(s, e); }
    KeptUnless(Step, OneInside, Overlaps, Init(flag), es);
  }

  /** As long as no call finds the flag to be changed while another is inside, the history tells the flag's changes. */
  lemma TidyWithoutOverlap(flag: bool, es: seq<Event>)
    requires !Ever(Step, Init(flag), es, Overlaps)
    ensures Tidy(After(flag, es))
  {
    OneInsideAfter(flag, es);
  }

  ghost predicate NoLoads(fs: seq<Event>) { forall i | 0 <= i < |fs| :: !fs[i].Load? }

  lemma NoLoadsNoOverlap(s: State, fs: seq<Event>)
    requires NoLoads(fs)
    ensures !Ever(Step, s, fs, Overlaps)
  {
  }

  /** The two calls go on: what they were about to write comes out twice, or the wrong way round. */
  lemma OverlapBreaks(s: State, e: Event) returns (fs: seq<Event>)
    requires OneInside(s) && Overlaps(s, e)
    ensures NoLoads(fs) && !Tidy(Exec(Step, Step(s, e), fs))
  {
    var i := e.id;
    var j :| Inside(s, j);
    var t := Step(s, e);
    assert t.setters[j] == s.setters[j] && At(t, i, Loaded);
    if At(s, j, Loaded) {
      fs := [Store(j), Append(j), Store(i), Append(i)];
      Exec4(Step, t, Store(j), Append(j), Store(i), Append(i));
      BothLoaded(t, j, i);
    } else {
      fs := [Store(i), Append(i), Append(j)];
      ExecThree(Step, t, Store(i), Append(i), Append(j));
      OneStored(s, t, j, i);
    }
  }

  lemma BothLoaded(t: State, j: CallId, i: CallId)
    requires i != j && At(t, j, Loaded) && At(t, i, Loaded) && t.setters[i].healthy == t.setters[j].healthy
    ensures !Tidy(Step(Step(Step(Step(t, Store(j)), Append(j)), Store(i)), Append(i)))
  {
    var b := t.setters[i].healthy;
    var u := Step(Step(t, Store(j)), Append(j));
    assert u.history == t.history + [b] && At(u, i, Loaded) && u.setters[i].healthy == b;
    var v := Step(Step(u, Store(i)), Append(i));
    assert v.history == t.history + [b] + [b];
    assert v.history[|t.history|] == v.history[|t.history| + 1];
  }

  lemma OneStored(s: State, t: State, j: CallId, i: CallId)
    requires OneInside(s) && At(s, j, Stored) && i != j && At(s, i, Entered) && s.setters[i].healthy != s.flag
    requires t == Step(s, Load(i))
    ensures !Tidy(Step(Step(Step(t, Store(i)), Append(i)), Append(j)))
  {
    var b := s.setters[i].healthy;
    assert Inside(s, j) && s.setters[j].healthy == !b;
    var u := Step(Step(t, Store(i)), Append(i));
    assert u.history == s.history + [b] && At(u, j, Stored) && u.setters[j].healthy == !b && u.flag == b;
    var v := Step(u, Append(j));
    assert v.history == s.history + [b] + [!b];
    forall k ensures !Inside(v, k) {
      if Inside(v, k) {
        assert Inside(s, k);
      }
    }
    if s.history != [] {
      assert v.history[|s.history| - 1] == b == v.history[|s.history|];
    }
  }

  /**
   Exactly that is what breaks it: after any run without an overlap, an event leaves the
   history sure to tell the flag's changes, in every continuation without another overlap,
   exactly if it is not an overlap itself.
   */
  lemma OverlapIsWhatBreaks(flag: bool, es: seq<Event>, e: Event)
    requires !Ever(Step, Init(flag), es, Overlaps)
    ensures var s := Step(After(flag, es), e);
      (forall fs | !Ever(Step, s, fs, Overlaps) :: Tidy(Exec(Step, s, fs))) <==> !Overlaps(After(flag, es), e)
  {
    OneInsideAfter(flag, es);
    var s := After(flag, es);
    if Overlaps(s, e) {
      var fs := OverlapBreaks(s, e);
      NoLoadsNoOverlap(Step(s, e), fs);
    } else {
      OneInsideKept(s, e);
      forall t, d | OneInside(t) && !Overlaps(t, d) ensures OneInside(Step(t, d)) { OneInsideKept(t, d); }
      forall fs | !Ever(Step, Step(s, e), fs, Overlaps) ensures Tidy(Exec(Step, Step(s, e), fs)) {
        KeptUnless(Step, OneInside, Overlaps, Step(s, e), fs);
      }
    }
  }

  /**
   It happens: the monitor and Shutdown are both at their load of a healthy flag, and take it
   down; the history says so twice.
   */
  lemma TakenDownTwice(s: State)
    requires s.flag && At(s, 0, Entered) && At(s, 1, Entered) && !s.setters[0].healthy && !s.setters[1].healthy
    ensures Exec(Step, s, [Load(0)] + [Load(1)] + [Store(0), Append(0), Store(1), Append(1)]).history
      == s.history + [false] + [false]
  {
    Snoc(Step, s, [], Load(0));
    assert [] + [Load(0)] == [Load(0)];
    Snoc(Step, s, [Load(0)], Load(1));
    Concat(Step, s, [Load(0)] + [Load(1)], [Store(0), Append(0), Store(1), Append(1)]);
    var t := Step(Step(s, Load(0)), Load(1));
    assert At(t, 0, Loaded) && At(t, 1, Loaded) && !t.setters[0].healthy && !t.setters[1].healthy && t.history == s.history;
    Exec4(Step, t, Store(0), Append(0), Store(1), Append(1));
    var u := Step(Step(t, Store(0)), Append(0));
    assert u.history == s.history + [false] && At(u, 1, Loaded) && !u.setters[1].healthy;
  }

  lemma BothAtTheirLoad()
    ensures var s := After(true, [Enter(0, false)] + [Enter(1, false)]);
      s.flag && At(s, 0, Entered) && At(s, 1, Entered) && !s.setters[0].healthy && !s.setters[1].healthy
  {
    Snoc(Step, Init(true), [], Enter(0, false));
    assert [] + [Enter(0, false)] == [Enter(0, false)];
    Snoc(Step, Init(true), [Enter(0, false)], Enter(1, false));
  }
}
