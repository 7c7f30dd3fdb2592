/** A chain of `if (…) { setError(msg); return; }` checks, as the forms write them:
    the message shown is the one of the first check that fails. */
module Validation {
  import opened Wrappers

  datatype Check = Check(failed: bool, message: string)

  /** The message of the first failing check, or `None` when every check passes. */
  function FirstFailure(checks: seq<Check>): Option<string> {
    if checks == [] then None
    else if checks[0].failed then Some(checks[0].message)
    else FirstFailure(checks[1..])
  }

  /** A failing check with only passing checks before it is the one reported. */
  lemma {:induction false} FirstFailureAt(checks: seq<Check>, k: nat)
    requires k < |checks| && checks[k].failed
    requires forall j :: 0 <= j < k ==> !checks[j].failed
    ensures FirstFailure(checks) == Some(checks[k].message)
  {
    if k > 0 {
      assert !checks[0].failed;
      FirstFailureAt(checks[1..], k - 1);
    }
  }

  /** Nothing is reported exactly when every check passes. */
  lemma {:induction false} FirstFailureNone(checks: seq<Check>)
    ensures FirstFailure(checks).None? <==> forall i :: 0 <= i < |checks| ==> !checks[i].failed
  {
    if checks != [] {
      FirstFailureNone(checks[1..]);
      assert forall i :: 1 <= i < |checks| ==> checks[i] == checks[1..][i - 1];
    }
  }

  /** Checks run in two groups report the first group's failure if it has one, and the
      second group's otherwise. */
  lemma {:induction false} FirstFailureAppend(a: seq<Check>, b: seq<Check>)
    ensures FirstFailure(a + b) == if FirstFailure(a).Some? then FirstFailure(a) else FirstFailure(b)
  {
    if a != [] {
      assert (a + b)[0] == a[0];
      assert (a + b)[1..] == a[1..] + b;
      FirstFailureAppend(a[1..], b);
    } else {
      assert a + b == b;
    }
  }
}
