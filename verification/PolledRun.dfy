/** Runs of a polled timer: a state with a next due time is offered a sequence of clock
    readings, and each reading may fire it. */
module PolledRun {
  import opened Wrappers

  /** The due times for which a run of polls fires. */
  function FireTimes<S>(step: (S, int) -> (S, bool), next: S -> int, s: S, clock: seq<int>): seq<int>
    decreases |clock|
  {
    if clock == [] then []
    else
      (if step(s, clock[0]).1 then [next(s)] else []) + FireTimes(step, next, step(s, clock[0]).0, clock[1..])
  }

  /** One step keeps the invariant, under which the due time is good, and moves the due
      time past the clock exactly when it fires. */
  ghost predicate MovesOn<S>(step: (S, int) -> (S, bool), next: S -> int, inv: S -> bool, good: int -> bool,
                             s: S, now: int)
  {
    var (s1, fired) := step(s, now);
    && inv(s1)
    && good(next(s))
    && (if fired then next(s) <= now < next(s1) else next(s1) == next(s))
  }

  ghost predicate MovesForward<S(!new)>(
      step: (S, int) -> (S, bool), next: S -> int, inv: S -> bool, good: int -> bool)
  {
    forall s, now :: inv(s) ==> MovesOn(step, next, inv, good, s, now)
  }

  lemma {:induction false} FireTimesIncrease<S(!new)>(
      step: (S, int) -> (S, bool), next: S -> int, inv: S -> bool, good: int -> bool,
      s: S, clock: seq<int>, last: int)
    requires MovesForward(step, next, inv, good) && inv(s)
    requires forall i :: 0 <= i < |clock| ==> clock[i] <= last
    ensures var times := FireTimes(step, next, s, clock);
      && Increasing(times)
      && forall i :: 0 <= i < |times| ==> next(s) <= times[i] <= last && good(times[i])
    decreases |clock|
  {
    if clock != [] {
      var now := clock[0];
      var s1 := step(s, now).0;
      assert MovesOn(step, next, inv, good, s, now);
      FireTimesIncrease(step, next, inv, good, s1, clock[1..], last);
    }
  }

  /** A run fires at most once per good time between its first due time and its last poll. */
  lemma {:induction false} FiresCounted<S(!new)>(
      step: (S, int) -> (S, bool), next: S -> int, inv: S -> bool, good: int -> bool,
      s: S, clock: seq<int>, from: int, last: int)
    requires MovesForward(step, next, inv, good) && inv(s) && from <= next(s)
    requires forall i :: 0 <= i < |clock| ==> clock[i] <= last
    ensures Increasing(FireTimes(step, next, s, clock))
    ensures |FireTimes(step, next, s, clock)| <= Count(good, from, last + 1)
  {
    FireTimesIncrease(step, next, inv, good, s, clock, last);
    IncreasingCount(good, from, last + 1, FireTimes(step, next, s, clock));
  }

  /** How many polls of a run find the state due. */
  function DuePolls<S>(step: (S, int) -> (S, bool), due: (S, int) -> bool, s: S, clock: seq<int>): nat
    decreases |clock|
  {
    if clock == [] then 0
    else (if due(s, clock[0]) then 1 else 0) + DuePolls(step, due, step(s, clock[0]).0, clock[1..])
  }

  /** One step keeps the invariant and fires exactly when the state is due. */
  ghost predicate FiresWhenDue<S>(
      step: (S, int) -> (S, bool), due: (S, int) -> bool, inv: S -> bool, s: S, now: int)
  {
    inv(step(s, now).0) && (due(s, now) <==> step(s, now).1)
  }

  /** If being due is enough to fire, the due polls are those that fire. */
  lemma {:induction false} DuePollsFire<S(!new)>(
      step: (S, int) -> (S, bool), next: S -> int, due: (S, int) -> bool, inv: S -> bool, s: S, clock: seq<int>)
    requires inv(s) && forall r, now :: inv(r) ==> FiresWhenDue(step, due, inv, r, now)
    ensures DuePolls(step, due, s, clock) == |FireTimes(step, next, s, clock)|
    decreases |clock|
  {
    if clock != [] {
      assert FiresWhenDue(step, due, inv, s, clock[0]);
      DuePollsFire(step, next, due, inv, step(s, clock[0]).0, clock[1..]);
    }
  }

  function Repeated(now: int, n: nat): (clock: seq<int>)
    ensures |clock| == n && forall i :: 0 <= i < n ==> clock[i] == now
  {
    seq(n, i => now)
  }

  /** A state that a poll leaves due at the same time is found due by every poll. */
  lemma {:induction false} StaysDue<S(!new)>(
      step: (S, int) -> (S, bool), due: (S, int) -> bool, stuck: S -> bool, s: S, now: int, n: nat)
    requires stuck(s) && forall r :: stuck(r) ==> due(r, now) && stuck(step(r, now).0)
    ensures DuePolls(step, due, s, Repeated(now, n)) == n
  {
    if 0 < n {
      StaysDue(step, due, stuck, step(s, now).0, now, n - 1);
      assert Repeated(now, n)[1..] == Repeated(now, n - 1);
    }
  }
}
