/** The "try each selector until one works" pattern that the login forms,
    the result-table lookup and the field-filling fallbacks all use: an ordered
    list of attempts, evaluated lazily, the first success winning. */
module Cascade {
  import opened Wrappers

  /** The outcome of trying each candidate in turn: whether it is one of
      those that work. */
  function Attempts<T(==)>(candidates: seq<T>, works: set<T>): (a: seq<bool>)
    ensures |a| == |candidates|
    ensures forall i :: 0 <= i < |a| ==> (a[i] <==> candidates[i] in works)
  {
    seq(|candidates|, i requires 0 <= i < |candidates| => candidates[i] in works)
  }

  /** Index of the first attempt that succeeded, `None` if all failed. */
  function FirstSuccess(attempts: seq<bool>): (r: Option<nat>)
    ensures r.Some? ==> r.value < |attempts| && attempts[r.value]
    ensures r.Some? ==> forall k :: 0 <= k < r.value ==> !attempts[k]
    ensures r.None? <==> forall k :: 0 <= k < |attempts| ==> !attempts[k]
  {
    if |attempts| == 0 then None
    else if attempts[0] then Some(0)
    else match FirstSuccess(attempts[1..])
      case None => None
      case Some(i) => Some(i + 1)
  }

  /** Attempts listed after a success are never looked at: appending more
      fallbacks cannot change which strategy wins. */
  lemma {:induction false} LaterAttemptsIrrelevant(a: seq<bool>, b: seq<bool>)
    requires FirstSuccess(a).Some?
    ensures FirstSuccess(a + b) == FirstSuccess(a)
  {
    assert forall k :: 0 <= k < |a| ==> (a + b)[k] == a[k];
  }

  /** When every earlier attempt fails, the winner is found among the
      fallbacks, shifted past the failed ones. */
  lemma {:induction false} FallbackAfterFailures(a: seq<bool>, b: seq<bool>)
    requires FirstSuccess(a).None?
    ensures FirstSuccess(a + b) == match FirstSuccess(b)
      case None => None
      case Some(j) => Some(|a| + j)
  {
    assert forall k :: 0 <= k < |a| ==> (a + b)[k] == a[k];
    assert forall k :: |a| <= k < |a + b| ==> (a + b)[k] == b[k - |a|];
    match FirstSuccess(b)
    case None =>
      assert forall k :: 0 <= k < |a + b| ==> !(a + b)[k];
    case Some(j) =>
      assert (a + b)[|a| + j];
      assert forall k :: 0 <= k < |a| + j ==> !(a + b)[k];
  }
}
