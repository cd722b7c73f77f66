/**
 The synchronous caller: bounded retries behind a circuit breaker that any number of calls
 share, so that leave to post and the record of its outcome interleave with other calls'.
 */
module SyncCaller {
  import Common

  /** What a post came back with; `decodes` says whether a 2xx body could be decoded. */
  datatype Outcome = TransportError | Status(code: int, decodes: bool)

  /** An infrastructure failure: no answer, or a 5xx answer. */
  predicate Infrastructure(o: Outcome) { o.TransportError? || o.code >= 500 }

  /** An outcome, and when it was recorded. */
  datatype Answer = Answer(outcome: Outcome, at: int)

  /** Leave to post, given at a time when `seen` outcomes had been recorded. */
  datatype Grant = Grant(seen: nat, at: int)

  /** The length of the run of infrastructure failures a record ends with. */
  function Failures(h: seq<Answer>): nat {
    if h == [] || !Infrastructure(h[|h| - 1].outcome) then 0 else Failures(h[..|h| - 1]) + 1
  }

  /** When the breaker was last opened or kept open; 0 is the zero time. */
  function OpenedAt(h: seq<Answer>, threshold: int): int {
    if h == [] then 0
    else if Infrastructure(h[|h| - 1].outcome) && Failures(h) >= threshold then h[|h| - 1].at
    else OpenedAt(h[..|h| - 1], threshold)
  }

  predicate Allowed(h: seq<Answer>, threshold: int, cooldown: int, now: int) {
    Failures(h) < threshold || now - OpenedAt(h, threshold) >= cooldown
  }

  /** The count is a run: the last `Failures(h)` outcomes are failures and the one before is not. */
  lemma {:induction false} FailuresIsTheLastRun(h: seq<Answer>)
    ensures Failures(h) <= |h|
    ensures forall i | |h| - Failures(h) <= i < |h| :: Infrastructure(h[i].outcome)
    ensures Failures(h) < |h| ==> !Infrastructure(h[|h| - Failures(h) - 1].outcome)
  {
    if h != [] && Infrastructure(h[|h| - 1].outcome) {
      FailuresIsTheLastRun(h[..|h| - 1]);
    }
  }

  /** The breaker is open exactly when the last `threshold` outcomes recorded are all failures. */
  lemma OpenExactlyAfterRun(h: seq<Answer>, threshold: nat)
    ensures Failures(h) >= threshold <==>
      threshold <= |h| && forall i | |h| - threshold <= i < |h| :: h[i].outcome.TransportError? || h[i].outcome.code >= 500
  {
    FailuresIsTheLastRun(h);
  }

  /** Leave is given exactly unless the last `threshold` outcomes are all failures and the latest is younger than `cooldown`. */
  lemma LeaveExactly(h: seq<Answer>, threshold: nat, cooldown: int, now: int)
    requires threshold >= 1
    ensures Allowed(h, threshold, cooldown, now) <==>
      !(threshold <= |h| && (forall i | |h| - threshold <= i < |h| :: h[i].outcome.TransportError? || h[i].outcome.code >= 500)
        && now < h[|h| - 1].at + cooldown)
  {
    OpenExactlyAfterRun(h, threshold);
    if Failures(h) >= threshold {
      LeaveAfterCooldown(h, threshold, cooldown, now);
    }
  }

  /** An open breaker gives leave exactly from `cooldown` after the latest failure on. */
  lemma LeaveAfterCooldown(h: seq<Answer>, threshold: int, cooldown: int, now: int)
    requires threshold >= 1 && Failures(h) >= threshold
    ensures h != [] && Infrastructure(h[|h| - 1].outcome)
    ensures Allowed(h, threshold, cooldown, now) <==> now - h[|h| - 1].at >= cooldown
  {
    FailuresIsTheLastRun(h);
  }

  /** The leave was due, given what had been recorded when it was asked for. */
  ghost predicate WithLeave(g: Grant, records: seq<Answer>, threshold: int, cooldown: int) {
    g.seen <= |records| && Allowed(records[..g.seen], threshold, cooldown, g.at)
  }

  ghost predicate Granted(grants: seq<Grant>, records: seq<Answer>, threshold: int, cooldown: int) {
    forall i {:trigger WithLeave(grants[i], records, threshold, cooldown)} | 0 <= i < |grants| ::
      WithLeave(grants[i], records, threshold, cooldown)
  }

  lemma StaysGranted(grants: seq<Grant>, records: seq<Answer>, a: Answer, threshold: int, cooldown: int)
    requires Granted(grants, records, threshold, cooldown)
    ensures Granted(grants, records + [a], threshold, cooldown)
  {
    forall i | 0 <= i < |grants| ensures WithLeave(grants[i], records + [a], threshold, cooldown) {
      assert WithLeave(grants[i], records, threshold, cooldown);
      assert (records + [a])[..grants[i].seen] == records[..grants[i].seen];
    }
  }

  class CircuitBreaker {
    const threshold: int
    const cooldown: int
    var failures: int
    var openedAt: int
    ghost var records: seq<Answer>
    ghost var grants: seq<Grant>

    /** The two numbers stand for the whole record, and no leave was given against it. */
    ghost predicate Valid()
      reads this
    {
      && failures == Failures(records)
      && openedAt == OpenedAt(records, threshold)
      && Granted(grants, records, threshold, cooldown)
    }

    constructor (threshold: int, cooldown: int)
      ensures Valid() && records == [] && grants == [] && this.threshold == threshold && this.cooldown == cooldown
    {
      this.threshold, this.cooldown := threshold, cooldown;
      failures, openedAt, records, grants := 0, 0, [], [];
    }

    method Allow(now: int) returns (ok: bool)
      requires Valid()
      modifies this`grants
      ensures Valid()
      ensures ok == Allowed(records, threshold, cooldown, now)
      ensures grants == if ok then old(grants) + [Grant(|records|, now)] else old(grants)
    {
      ok := failures < threshold || now - openedAt >= cooldown;
      if ok {
        assert records[..|records|] == records;
        grants := grants + [Grant(|records|, now)];
      }
    }

    /** Records an outcome, of whichever call. */
    method Record(success: bool, now: int, ghost a: Answer)
      requires Valid()
      requires success == !Infrastructure(a.outcome) && a.at == now
      modifies this`failures, this`openedAt, this`records
      ensures Valid() && records == old(records) + [a]
    {
      assert (records + [a])[..|records|] == records;
      StaysGranted(grants, records, a, threshold, cooldown);
      records := records + [a];
      if success {
        failures := 0;
        return;
      }
      failures := failures + 1;
      if failures >= threshold {
        openedAt := now;
      }
    }

    /** The last failure, while the breaker stands open. */
    method OpenSince() returns (since: int, open: bool)
      requires Valid()
      ensures open <==> Failures(records) >= threshold
      ensures open && threshold >= 1 ==> records != [] && since == records[|records| - 1].at
    {
      if failures < threshold {
        return 0, false;
      }
      FailuresIsTheLastRun(records);
      return openedAt, true;
    }
  }

  /**
   What one round of the loop meets: the context; what other calls record before leave is
   asked for; the clock; what they record while the post is out; its answer; the clock again.
   */
  datatype Round = Round(
    ctxDone: bool, before: seq<Answer>, allowedAt: int, during: seq<Answer>, outcome: Outcome, recordedAt: int)

  function AnswerOf(r: Round): Answer { Answer(r.outcome, r.recordedAt) }

  /** What is recorded over a round that posts. */
  function Recorded(r: Round): seq<Answer> { r.before + r.during + [AnswerOf(r)] }

  /** The leave a round is given, in a record of `start` outcomes. */
  function Leave(r: Round, start: nat): Grant { Grant(start + |r.before|, r.allowedAt) }

  /** Everything recorded over the rounds in which this call posts ... */
  function Log(rounds: seq<Round>): seq<Answer> {
    if rounds == [] then [] else Log(rounds[..|rounds| - 1]) + Recorded(rounds[|rounds| - 1])
  }

  /** ... and the leaves it was given, one for each. */
  function Leaves(rounds: seq<Round>, start: nat): (r: seq<Grant>)
    ensures |r| == |rounds|
  {
    if rounds == [] then []
    else
      var front := rounds[..|rounds| - 1];
      Leaves(front, start) + [Leave(rounds[|rounds| - 1], start + |Log(front)|)]
  }

  datatype CallResult = Nil | CircuitOpen | CallError(code: int) | Transport | Undecodable

  /** Stopped after `n` posts with nothing more to try: a status below 500, or out of retries or of context. */
  ghost predicate Finished(rounds: seq<Round>, n: nat, retryMax: nat)
    requires n <= retryMax <= |rounds|
  {
    && n > 0
    && ((rounds[n - 1].outcome.Status? && rounds[n - 1].outcome.code < 500) || n == retryMax || rounds[n].ctxDone)
  }

  /** The result is what the last post came back with. */
  ghost predicate AnswersWith(r: CallResult, o: Outcome) {
    && (r == Nil <==> o.Status? && 200 <= o.code <= 299 && o.decodes)
    && (r == Undecodable <==> o.Status? && 200 <= o.code <= 299 && !o.decodes)
    && (r == Transport <==> o.TransportError?)
    && (r.CallError? <==> o.Status? && (o.code < 200 || 299 < o.code))
    && (r.CallError? ==> r.code == o.code)
    && r != CircuitOpen
  }

  class Caller {
    const breaker: CircuitBreaker
    const retryMax: nat

    constructor (breaker: CircuitBreaker, retryMax: int)
      ensures this.breaker == breaker && this.retryMax == if retryMax < 1 then 1 else retryMax
    {
      this.breaker := breaker;
      this.retryMax := if retryMax < 1 then 1 else retryMax;
    }

    /** Other calls recording their outcomes. */
    method Interfere(answers: seq<Answer>)
      requires breaker.Valid()
      modifies breaker`failures, breaker`openedAt, breaker`records
      ensures breaker.Valid() && breaker.records == old(breaker.records) + answers
    {
      for i := 0 to |answers|
        invariant breaker.Valid() && breaker.records == old(breaker.records) + answers[..i]
      {
        breaker.Record(!Infrastructure(answers[i].outcome), answers[i].at, answers[i]);
      }
    }

    /** One post and its record: the call ends with `r`, or goes on with `r` as its last error. */
    method PostOnce(round: Round) returns (r: CallResult, ends: bool)
      requires breaker.Valid()
      modifies breaker`failures, breaker`openedAt, breaker`records
      ensures breaker.Valid()
      ensures breaker.records == old(breaker.records) + [AnswerOf(round)]
      ensures ends <==> round.outcome.Status? && round.outcome.code < 500
      ensures AnswersWith(r, round.outcome)
    {
      if round.outcome.TransportError? {
        breaker.Record(false, round.recordedAt, AnswerOf(round));
        return Transport, false;
      }
      var status := round.outcome.code;
      if status < 200 || status >= 300 {
        breaker.Record(status < 500, round.recordedAt, AnswerOf(round));
        return CallError(status), status < 500;
      }
      breaker.Record(true, round.recordedAt, AnswerOf(round));
      return if round.outcome.decodes then Nil else Undecodable, true;
    }

    /** A round past the context: leave is asked for and, if given, the post made. */
    method OneRound(round: Round) returns (r: CallResult, granted: bool, ends: bool)
      requires breaker.Valid()
      modifies breaker
      ensures breaker.Valid()
      ensures granted ==> breaker.records == old(breaker.records) + Recorded(round)
      ensures granted ==> breaker.grants == old(breaker.grants) + [Leave(round, |old(breaker.records)|)]
      ensures granted ==> AnswersWith(r, round.outcome) && (ends <==> round.outcome.Status? && round.outcome.code < 500)
      ensures !granted ==> breaker.records == old(breaker.records) + round.before
      ensures !granted ==> breaker.grants == old(breaker.grants) && r == CircuitOpen
      ensures !granted ==> !Allowed(breaker.records, breaker.threshold, breaker.cooldown, round.allowedAt)
    {
      Interfere(round.before);
      granted := breaker.Allow(round.allowedAt);
      if !granted {
        return CircuitOpen, false, true;
      }
      Interfere(round.during);
      r, ends := PostOnce(round);
      ghost var h := old(breaker.records);
      Common.Assoc(h, round.before, round.during);
      Common.Assoc(h, round.before + round.during, [AnswerOf(round)]);
    }

    /**
     One call, which makes `n` posts. It makes at most retryMax of them, each with leave of
     its own; all but the last failed for infrastructure reasons, so it stops at the first
     other answer; it answers with the last post's answer or, exactly if the breaker stopped
     it, with the breaker's error; and by its last post the breaker has recorded each of
     them once, among what the other calls recorded (`posted`).
     */
    method Call(rounds: seq<Round>) returns (r: CallResult, ghost n: nat, ghost posted: seq<Answer>)
      requires breaker.Valid() && 1 <= retryMax <= |rounds|
      modifies breaker
      ensures breaker.Valid() && n <= retryMax
      ensures forall i | 0 <= i < n - 1 :: rounds[i].outcome.TransportError? || rounds[i].outcome.code >= 500
      ensures Grew(old(breaker.records), old(breaker.grants), rounds, n, posted, breaker.grants)
      ensures Finished(rounds, n, retryMax) ==> AnswersWith(r, rounds[n - 1].outcome) && breaker.records == posted
      ensures !Finished(rounds, n, retryMax) ==>
        && n < retryMax && r == CircuitOpen && breaker.records == posted + rounds[n].before
        && !Allowed(breaker.records, breaker.threshold, breaker.cooldown, rounds[n].allowedAt)
    {
      ghost var h, g := breaker.records, breaker.grants;
      n := 0;
      var lastErr := Nil;
      for attempt: nat := 0 to retryMax
        invariant n == attempt && breaker.Valid()
        invariant Grew(h, g, rounds, attempt, breaker.records, breaker.grants)
        invariant forall i | 0 <= i < attempt :: Infrastructure(rounds[i].outcome)
        invariant attempt > 0 ==> AnswersWith(lastErr, rounds[attempt - 1].outcome)
      {
        var round := rounds[attempt];
        if attempt > 0 && round.ctxDone {
          return lastErr, n, breaker.records;
        }
        ghost var h1, g1 := breaker.records, breaker.grants;
        var granted, ends;
        lastErr, granted, ends := OneRound(round);
        if !granted {
          return CircuitOpen, n, h1;
        }
        GrowsOn(h, g, rounds, attempt, h1, g1);
        n := n + 1;
        if ends {
          return lastErr, n, breaker.records;
        }
      }
      return lastErr, n, breaker.records;
    }
  }

  /** Over `n` rounds that post, the breaker's record and its leaves grew from `h` and `g` to these. */
  ghost predicate Grew(h: seq<Answer>, g: seq<Grant>, rounds: seq<Round>, n: nat, records: seq<Answer>, grants: seq<Grant>)
    requires n <= |rounds|
  {
    records == h + Log(rounds[..n]) && grants == g + Leaves(rounds[..n], |h|)
  }

  lemma GrowsOn(h: seq<Answer>, g: seq<Grant>, rounds: seq<Round>, n: nat, records: seq<Answer>, grants: seq<Grant>)
    requires n < |rounds| && Grew(h, g, rounds, n, records, grants)
    ensures Grew(h, g, rounds, n + 1, records + Recorded(rounds[n]), grants + [Leave(rounds[n], |records|)])
  {
    LogSnoc(rounds, n);
    LeavesSnoc(rounds, n, |h|);
    Common.Assoc(h, Log(rounds[..n]), Recorded(rounds[n]));
    Common.Assoc(g, Leaves(rounds[..n], |h|), [Leave(rounds[n], |records|)]);
  }

  lemma LogSnoc(rounds: seq<Round>, k: nat)
    requires k < |rounds|
    ensures Log(rounds[..k + 1]) == Log(rounds[..k]) + Recorded(rounds[k])
  {
    assert rounds[..k + 1][..k] == rounds[..k];
  }

  lemma LeavesSnoc(rounds: seq<Round>, k: nat, start: nat)
    requires k < |rounds|
    ensures Leaves(rounds[..k + 1], start) == Leaves(rounds[..k], start) + [Leave(rounds[k], start + |Log(rounds[..k])|)]
  {
    assert rounds[..k + 1][..k] == rounds[..k];
  }
}
