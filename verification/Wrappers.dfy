/** Result and option types used by every module, and the few facts about
    strings and sequences that several modules share. */
module Wrappers {

  datatype Option<+T> = None | Some(value: T)

  datatype Result<+T, +E> = Ok(value: T) | Err(error: E) {
    predicate IsFailure() { Err? }

    function PropagateFailure<U>(): Result<U, E>
      requires Err?
    {
      Err(error)
    }

    function Extract(): T
      requires Ok?
    {
      value
    }
  }

  /** Success without a payload, the source's `()`. */
  datatype Unit = Unit

  lemma {:induction false} Associate<T>(a: seq<T>, b: seq<T>, c: seq<T>)
    ensures (a + b) + c == a + (b + c)
  {
  }

  /** How many `m` with `from <= m < to` satisfy a predicate. */
  function Count(p: int -> bool, from: int, to: int): nat
    decreases to - from
  {
    if to <= from then 0 else Count(p, from, to - 1) + (if p(to - 1) then 1 else 0)
  }

  lemma {:induction false} CountMore(p: int -> bool, from: int, a: int, b: int)
    requires a <= b
    ensures Count(p, from, a) <= Count(p, from, b)
    decreases b - a
  {
    if a < b && from < b {
      CountMore(p, from, a, b - 1);
    }
  }

  /** Only the first number of an interval is selected. */
  lemma {:induction false} CountOnly(p: int -> bool, lo: int, hi: int)
    requires lo < hi && p(lo) && forall m :: lo < m < hi ==> !p(m)
    ensures Count(p, lo, hi) == 1
    decreases hi - lo
  {
    if lo + 1 < hi {
      CountOnly(p, lo, hi - 1);
    } else {
      assert Count(p, lo, lo) == 0;
    }
  }

  lemma {:induction false} CountParts(p: int -> bool, from: int, mid: int, upto: int)
    requires from <= mid <= upto
    ensures Count(p, from, upto) == Count(p, from, mid) + Count(p, mid, upto)
    decreases upto - mid
  {
    if mid < upto {
      CountParts(p, from, mid, upto - 1);
    }
  }

  lemma {:induction false} CountNone(p: int -> bool, from: int, upto: int)
    requires forall k :: from <= k < upto ==> !p(k)
    ensures Count(p, from, upto) == 0
    decreases upto - from
  {
    if from < upto {
      CountNone(p, from, upto - 1);
    }
  }

  lemma {:induction false} CountSame(p: int -> bool, q: int -> bool, from: int, upto: int)
    requires forall k :: from <= k < upto ==> p(k) == q(k)
    ensures Count(p, from, upto) == Count(q, from, upto)
    decreases upto - from
  {
    if from < upto {
      CountSame(p, q, from, upto - 1);
    }
  }

  predicate Increasing(s: seq<int>) {
    forall i, k :: 0 <= i < k < |s| ==> s[i] < s[k]
  }

  /** Distinct selected numbers of an interval are at most as many as it selects. */
  lemma {:induction false} IncreasingCount(p: int -> bool, from: int, to: int, s: seq<int>)
    requires Increasing(s) && forall i :: 0 <= i < |s| ==> from <= s[i] < to && p(s[i])
    ensures |s| <= Count(p, from, to)
    decreases |s|
  {
    if s != [] {
      var last := s[|s| - 1];
      IncreasingCount(p, from, last, s[..|s| - 1]);
      CountMore(p, from, last + 1, to);
    }
  }

  const U32_MAX: nat := 0xFFFF_FFFF
}
