/** Stock result types shared by every component. */
module Wrappers {
  /** An optional value: the source's `X | None`. */
  datatype Option<+T> = None | Some(value: T)

  /** A value or a raised exception. */
  datatype Result<+T, +E> = Ok(value: T) | Err(error: E)

  function OrElse<T>(o: Option<T>, default: T): T {
    if o.Some? then o.value else default
  }

  /** A truth value as a number, for counting. */
  function One(b: bool): nat {
    if b then 1 else 0
  }

  /** Indices below `n`, in strictly increasing order. */
  ghost predicate Increasing(picks: seq<nat>, n: nat) {
    && (forall k :: 0 <= k < |picks| ==> picks[k] < n)
    && (forall h, k :: 0 <= h < k < |picks| ==> picks[h] < picks[k])
  }

  lemma PickNone()
    ensures Increasing([], 0)
  {
  }

  lemma PickBelow(picks: seq<nat>, n: nat, k: nat)
    requires Increasing(picks, n) && k < |picks|
    ensures picks[k] < n
  {
  }

  lemma PickNext(picks: seq<nat>, n: nat)
    requires Increasing(picks, n)
    ensures Increasing(picks, n + 1) && Increasing(picks + [n], n + 1) && n !in picks
  {
  }

  function Max(a: int, b: int): int {
    if a >= b then a else b
  }
}
