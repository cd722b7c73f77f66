/** Values and facts shared by the model. */
module Common {

  datatype Option<+T> = None | Some(value: T)

  datatype Result<+T, +E> = Success(value: T) | Failure(error: E)

  lemma Assoc<T>(a: seq<T>, b: seq<T>, c: seq<T>)
    ensures a + (b + c) == (a + b) + c
  {
  }
}

/**
 Whole runs of a state machine.

 Every protocol below is given by a total step function: an event whose guard is false
 leaves the state alone, so each sequence of events is a run and a statement about all
 sequences is a statement about all interleavings.
 */
module Runs {

  /** The state after the events `es`, taken in order from `s`. */
  ghost function Exec<S(!new), E(!new)>(step: (S, E) -> S, s: S, es: seq<E>): S
  {
    if es == [] then s else step(Exec(step, s, es[..|es| - 1]), es[|es| - 1])
  }

  /** What every step keeps holds at the end of every run. */
  lemma {:induction false} Invariant<S(!new), E(!new)>(step: (S, E) -> S, inv: S -> bool, s: S, es: seq<E>)
    requires inv(s)
    requires forall t, e :: inv(t) ==> inv(step(t, e))
    ensures inv(Exec(step, s, es))
  {
    if es == [] {
    } else {
      Invariant(step, inv, s, es[..|es| - 1]);
    }
  }

  lemma Snoc<S(!new), E(!new)>(step: (S, E) -> S, s: S, es: seq<E>, e: E)
    ensures Exec(step, s, es + [e]) == step(Exec(step, s, es), e)
  {
  }

  lemma Exec4<S(!new), E(!new)>(step: (S, E) -> S, s: S, a: E, b: E, c: E, d: E)
    ensures Exec(step, s, [a, b, c, d]) == step(step(step(step(s, a), b), c), d)
  {
    ExecThree(step, s, a, b, c);
    Snoc(step, s, [a, b, c], d);
    assert [a, b, c] + [d] == [a, b, c, d];
  }

  lemma ExecThree<S(!new), E(!new)>(step: (S, E) -> S, s: S, a: E, b: E, c: E)
    ensures Exec(step, s, [a, b, c]) == step(step(step(s, a), b), c)
  {
    Snoc(step, s, [], a);
    Snoc(step, s, [a], b);
    Snoc(step, s, [a, b], c);
    assert [] + [a] == [a] && [a] + [b] == [a, b] && [a, b] + [c] == [a, b, c];
  }

  lemma ExecOneOrThree<S(!new), E(!new)>(step: (S, E) -> S, s: S, es: seq<E>)
    ensures |es| == 1 ==> Exec(step, s, es) == step(s, es[0])
    ensures |es| == 3 ==> Exec(step, s, es) == step(step(step(s, es[0]), es[1]), es[2])
  {
    if |es| == 1 {
      Snoc(step, s, [], es[0]);
      assert [] + [es[0]] == es;
    } else if |es| == 3 {
      ExecThree(step, s, es[0], es[1], es[2]);
      assert es == [es[0], es[1], es[2]];
    }
  }

  /** Running `es` and then `fs` is running `es + fs`. */
  lemma {:induction false} Concat<S(!new), E(!new)>(step: (S, E) -> S, s: S, es: seq<E>, fs: seq<E>)
    ensures Exec(step, s, es + fs) == Exec(step, Exec(step, s, es), fs)
  {
    if fs == [] {
      assert es + fs == es;
    } else {
      Concat(step, s, es, fs[..|fs| - 1]);
      assert (es + fs)[..|es + fs| - 1] == es + fs[..|fs| - 1];
    }
  }

  /** Some event of the run meets a state in which `p` holds of the two. */
  ghost predicate Ever<S(!new), E(!new)>(step: (S, E) -> S, s: S, es: seq<E>, p: (S, E) -> bool) {
    exists i :: 0 <= i < |es| && Meets(step, s, es, p, i)
  }

  ghost predicate Meets<S(!new), E(!new)>(step: (S, E) -> S, s: S, es: seq<E>, p: (S, E) -> bool, i: nat)
    requires i < |es|
  {
    p(Exec(step, s, es[..i]), es[i])
  }

  lemma EverSnoc<S(!new), E(!new)>(step: (S, E) -> S, s: S, es: seq<E>, e: E, p: (S, E) -> bool)
    ensures Ever(step, s, es + [e], p) <==> Ever(step, s, es, p) || p(Exec(step, s, es), e)
  {
    var all := es + [e];
    assert forall i | 0 <= i < |es| :: all[..i] == es[..i];
    assert all[..|es|] == es;
    assert Meets(step, s, all, p, |es|) <==> p(Exec(step, s, es), e);
    assert forall i | 0 <= i < |es| :: Meets(step, s, all, p, i) <==> Meets(step, s, es, p, i);
  }

  /** What every event but those of one kind keeps holds as long as there is none. */
  lemma {:induction false} KeptUnless<S(!new), E(!new)>(step: (S, E) -> S, inv: S -> bool, p: (S, E) -> bool, s: S, es: seq<E>)
    requires inv(s) && !Ever(step, s, es, p)
    requires forall t, e :: inv(t) && !p(t, e) ==> inv(step(t, e))
    ensures inv(Exec(step, s, es))
  {
    if es == [] {
    } else {
      var front, e := es[..|es| - 1], es[|es| - 1];
      assert front + [e] == es;
      EverSnoc(step, s, front, e, p);
      KeptUnless(step, inv, p, s, front);
    }
  }

  /** What can happen in no state that every step keeps does not happen. */
  lemma Never<S(!new), E(!new)>(step: (S, E) -> S, inv: S -> bool, s: S, es: seq<E>, p: (S, E) -> bool)
    requires inv(s)
    requires forall t, e :: inv(t) ==> inv(step(t, e))
    requires forall t, e :: inv(t) ==> !p(t, e)
    ensures !Ever(step, s, es, p)
  {
    forall i | 0 <= i < |es| ensures !Meets(step, s, es, p, i) {
      Invariant(step, inv, s, es[..i]);
    }
  }

  /** What only events of one kind bring about, for good, holds exactly after such an event. */
  lemma {:induction false} ExactlyAfter<S(!new), E(!new)>(step: (S, E) -> S, s: S, es: seq<E>, p: (S, E) -> bool, q: S -> bool)
    requires !q(s)
    requires forall t, e :: q(step(t, e)) <==> q(t) || p(t, e)
    ensures q(Exec(step, s, es)) <==> Ever(step, s, es, p)
  {
    if es == [] {
    } else {
      var front, e := es[..|es| - 1], es[|es| - 1];
      ExactlyAfter(step, s, front, p, q);
      EverSnoc(step, s, front, e, p);
      assert front + [e] == es;
    }
  }

  /** Some event of the run is a `start`, and no later one is a `stop`. */
  ghost predicate Since<S(!new), E(!new)>(step: (S, E) -> S, s: S, es: seq<E>, start: (S, E) -> bool, stop: (S, E) -> bool) {
    exists i :: 0 <= i < |es| && Meets(step, s, es, start, i) && Unstopped(step, s, es, stop, i)
  }

  ghost predicate Unstopped<S(!new), E(!new)>(step: (S, E) -> S, s: S, es: seq<E>, stop: (S, E) -> bool, i: nat) {
    forall j | i < j < |es| :: !Meets(step, s, es, stop, j)
  }

  lemma SinceSnoc<S(!new), E(!new)>(
      step: (S, E) -> S, s: S, es: seq<E>, e: E, start: (S, E) -> bool, stop: (S, E) -> bool)
    ensures Since(step, s, es + [e], start, stop) <==>
      (start(Exec(step, s, es), e) || (Since(step, s, es, start, stop) && !stop(Exec(step, s, es), e)))
  {
    var all, n := es + [e], |es|;
    assert forall i | 0 <= i < n :: all[..i] == es[..i] && all[i] == es[i];
    assert all[..n] == es && all[n] == e;
    assert forall i | 0 <= i < n :: Meets(step, s, all, start, i) == Meets(step, s, es, start, i);
    assert forall i | 0 <= i < n :: Meets(step, s, all, stop, i) == Meets(step, s, es, stop, i);
    assert Meets(step, s, all, start, n) == start(Exec(step, s, es), e);
    assert Meets(step, s, all, stop, n) == stop(Exec(step, s, es), e);
    assert forall i | 0 <= i < n ::
      Unstopped(step, s, all, stop, i) == (Unstopped(step, s, es, stop, i) && !stop(Exec(step, s, es), e));
    assert Unstopped(step, s, all, stop, n);
  }

  /** What starts and stops with certain events holds exactly since a start. */
  lemma {:induction false} ExactlySince<S(!new), E(!new)>(
      step: (S, E) -> S, s: S, es: seq<E>, start: (S, E) -> bool, stop: (S, E) -> bool, q: S -> bool)
    requires !q(s)
    requires forall t, e :: q(step(t, e)) <==> start(t, e) || (q(t) && !stop(t, e))
    ensures q(Exec(step, s, es)) <==> Since(step, s, es, start, stop)
  {
    if es == [] {
    } else {
      var front, e := es[..|es| - 1], es[|es| - 1];
      ExactlySince(step, s, front, start, stop, q);
      SinceSnoc(step, s, front, e, start, stop);
      assert front + [e] == es;
    }
  }
}

/** Finite sets of numbers, listed in order. */
module Ascent {

  lemma Pick<T>(s: set<T>) returns (y: T)
    requires s != {}
    ensures y in s
  {
    y :| y in s;
  }

  lemma {:induction false} HasMin(s: set<int>)
    requires s != {}
    ensures exists m :: m in s && forall x | x in s :: m <= x
  {
    var y := Pick(s);
    var rest := s - {y};
    var least := y;
    if rest != {} {
      HasMin(rest);
      var m :| m in rest && forall x | x in rest :: m <= x;
      least := if m <= y then m else y;
    }
    forall x | x in s ensures least <= x {
      assert x == y || x in rest;
    }
    assert least in s;
  }

  function Least(s: set<int>): (m: int)
    requires s != {}
    ensures m in s && forall x | x in s :: m <= x
  {
    HasMin(s);
    var m :| m in s && forall x | x in s :: m <= x;
    m
  }

  /** The numbers of `s` in ascending order. */
  function Ascending(s: set<int>): (r: seq<int>)
    ensures forall x :: x in r <==> x in s
    ensures forall i, j | 0 <= i < j < |r| :: r[i] < r[j]
    decreases |s|
  {
    if s == {} then []
    else
      var m := Least(s);
      [m] + Ascending(s - {m})
  }
}
