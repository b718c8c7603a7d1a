// How repeated teardowns converge, as arithmetic on the servers left and the destroy failures to come.
module Teardown {
  import opened Prelude

  const DESTROY_ATTEMPTS := 3

  /** Servers left by one teardown of `k` servers when the next `f` destroy calls fail. */
  function Kept(k: nat, f: nat): nat { Min(k, f / DESTROY_ATTEMPTS) }

  /** Destroy failures still to come after it. */
  function FailuresLeft(k: nat, f: nat): nat { Max(f - DESTROY_ATTEMPTS * k, 0) }

  /** The same for the counts a teardown keeps as it goes. */
  lemma KeptNext(n: nat, f: nat, left: nat, next: nat, kept: nat, ok: bool)
    requires kept == Kept(n, f) && left == FailuresLeft(n, f) && (ok <==> left < DESTROY_ATTEMPTS)
    requires next == if ok then 0 else left - DESTROY_ATTEMPTS
    ensures kept + (if ok then 0 else 1) == Kept(n + 1, f) && next == FailuresLeft(n + 1, f)
  {
  }

  /** How many of `runs` teardowns in a row fail. */
  function FailedRuns(k: nat, f: nat, runs: nat): nat {
    if runs == 0 then 0
    else (if Kept(k, f) > 0 then 1 else 0) + FailedRuns(Kept(k, f), FailuresLeft(k, f), runs - 1)
  }

  function KeptAfter(k: nat, f: nat, runs: nat): nat {
    if runs == 0 then k else KeptAfter(Kept(k, f), FailuresLeft(k, f), runs - 1)
  }

  /** Rerunning never adds servers, at most one run in three failures fails, and the run after those leaves nothing. */
  lemma {:induction false} Converges(k: nat, f: nat, runs: nat)
    ensures FailedRuns(k, f, runs) <= f / DESTROY_ATTEMPTS
    ensures KeptAfter(k, f, runs) <= k
    ensures f / DESTROY_ATTEMPTS < runs ==> KeptAfter(k, f, runs) == 0
    ensures k == 0 ==> FailedRuns(k, f, runs) == 0 && KeptAfter(k, f, runs) == 0
  {
    if runs != 0 {
      Converges(Kept(k, f), FailuresLeft(k, f), runs - 1);
    }
  }

  /** A failed run is never preceded by one that succeeded: the failures come first. */
  lemma {:induction false} SuccessIsFinal(k: nat, f: nat, first: nat, more: nat)
    requires 0 < first && KeptAfter(k, f, first) == 0
    ensures FailedRuns(k, f, first + more) == FailedRuns(k, f, first) && KeptAfter(k, f, first + more) == 0
  {
    if first == 1 {
      Converges(Kept(k, f), FailuresLeft(k, f), more);
    } else {
      SuccessIsFinal(Kept(k, f), FailuresLeft(k, f), first - 1, more);
    }
  }
}
