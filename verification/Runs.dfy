/** Induction along the steps of a run. */
module Runs {
  /** Induction over the steps of a run, with the run itself out of sight. */
  lemma {:induction false} CarryAlong(inv: nat -> bool, ok: nat -> bool, n: nat)
    requires inv(0) && forall k: nat, j: nat | j == k + 1 <= n && inv(k) && ok(k) :: inv(j)
    requires forall k: nat | k < n :: ok(k)
    ensures forall k: nat | k <= n :: inv(k)
  {
    if n > 0 {
      CarryAlong(inv, ok, n - 1);
      assert inv(n - 1) && ok(n - 1) ==> inv(n);
    }
  }

  /** A run that never visibly fails takes only good steps, if a bad step from a good state always shows. */
  lemma {:induction false} NoBadStep(inv: nat -> bool, ok: nat -> bool, clean: nat -> bool, n: nat)
    requires inv(0) && forall k: nat, j: nat | j == k + 1 <= n && inv(k) && ok(k) :: inv(j)
    requires forall k: nat, j: nat | j == k + 1 <= n && inv(k) && !ok(k) :: !clean(j)
    requires forall k: nat | k <= n :: clean(k)
    ensures forall k: nat | k < n :: ok(k)
  {
    if n > 0 {
      NoBadStep(inv, ok, clean, n - 1);
      CarryAlong(inv, ok, n - 1);
      assert inv(n - 1) && clean(n);
    }
  }
}
