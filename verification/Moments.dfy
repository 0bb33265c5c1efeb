/** Moments of a run, for statements of the form "this is so if and only if it was
    brought about and has not been undone since". */
module Moments {

  /** At some moment before n it was brought about, and not undone after that. */
  ghost predicate Since(n: nat, on: nat -> bool, off: nat -> bool) {
    exists i: nat :: i < n && on(i) && forall j: nat :: i < j < n ==> !off(j)
  }

  /** One moment more. */
  lemma SinceStep(n: nat, on: nat -> bool, off: nat -> bool)
    ensures Since(n + 1, on, off) <==> on(n) || (Since(n, on, off) && !off(n))
  {
    if i: nat :| i < n && on(i) && forall j: nat :: i < j < n ==> !off(j) {
      if !off(n) { assert forall j: nat :: i < j < n + 1 ==> !off(j); }
    }
  }

  /** Only what happened before n counts. */
  lemma SinceSame(n: nat, on: nat -> bool, off: nat -> bool, on': nat -> bool, off': nat -> bool)
    requires forall i: nat :: i < n ==> on(i) == on'(i) && off(i) == off'(i)
    ensures Since(n, on, off) <==> Since(n, on', off')
  {
    if i: nat :| i < n && on(i) && forall j: nat :: i < j < n ==> !off(j) {
      assert on'(i) && forall j: nat :: i < j < n ==> !off'(j);
    }
    if i: nat :| i < n && on'(i) && forall j: nat :: i < j < n ==> !off'(j) {
      assert on(i) && forall j: nat :: i < j < n ==> !off(j);
    }
  }
}
