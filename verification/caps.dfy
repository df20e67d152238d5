/**
 * The per-run application cap shared by `apply_jobs` (job_apply.py) and `auto_apply_hirist`
 * (job_hirish.py): items are taken in order, the cap is checked before each one, and each item
 * adds at most one to the count.
 */
module Caps {

  /** How many of the outcomes are successes. */
  function CountTrue(oks: seq<bool>): (n: nat)
    ensures n <= |oks|
  {
    if oks == [] then 0 else CountTrue(oks[..|oks| - 1]) + (if oks[|oks| - 1] then 1 else 0)
  }

  /** The non-negative part of a configured cap: a cap of zero or less admits nothing. */
  function CapOf(cap: int): nat {
    if cap < 0 then 0 else cap
  }

  /**
   * `n` items were processed by a loop that checks `count < cap` before each item: every item
   * taken was taken below the cap, and the loop stopped at the end of the list or at the cap.
   */
  predicate CappedRun(oks: seq<bool>, cap: int, n: nat) {
    && n <= |oks|
    && (forall k :: 0 <= k < n ==> CountTrue(oks[..k]) < cap)
    && (n == |oks| || CountTrue(oks[..n]) >= cap)
  }

  /** A capped run never counts more than the cap. */
  lemma {:induction false} CappedRunBound(oks: seq<bool>, cap: int, n: nat)
    requires CappedRun(oks, cap, n)
    ensures CountTrue(oks[..n]) <= CapOf(cap)
  {
    if n > 0 {
      assert oks[..n][..n - 1] == oks[..n - 1];
      assert CountTrue(oks[..n - 1]) < cap;
    }
  }

  /** The number of items a capped run processes is determined by the outcomes and the cap. */
  lemma CappedRunUnique(oks: seq<bool>, cap: int, n1: nat, n2: nat)
    requires CappedRun(oks, cap, n1) && CappedRun(oks, cap, n2)
    ensures n1 == n2
  {
  }

  /** Extending a prefix by one item adds that item's outcome to the count. */
  lemma CountTruePrefix(oks: seq<bool>, k: nat)
    requires k < |oks|
    ensures CountTrue(oks[..k + 1]) == CountTrue(oks[..k]) + (if oks[k] then 1 else 0)
  {
    assert oks[..k + 1][..k] == oks[..k];
  }
}
