/**
 * Validation in the script is a fixed sequence of checks, each with the alert
 * it raises, stopping at the first one that fails.
 */
module Checks {

  /** The verdict of a sequence of checks: accepted, or the failure of the first check that did not hold. */
  datatype Verdict<+E> = Accepted | Rejected(reason: E)

  datatype Check<+E> = Check(holds: bool, failure: E)

  function FirstFailing<E>(checks: seq<Check<E>>): (v: Verdict<E>)
    ensures v.Accepted? <==> forall i :: 0 <= i < |checks| ==> checks[i].holds
    ensures v.Rejected? ==>
      exists i :: 0 <= i < |checks| && !checks[i].holds && checks[i].failure == v.reason
        && forall j :: 0 <= j < i ==> checks[j].holds
    ensures forall i :: 0 <= i < |checks| && !checks[i].holds && (forall j :: 0 <= j < i ==> checks[j].holds) ==>
      v == Rejected(checks[i].failure)
  {
    if |checks| == 0 then Accepted
    else if !checks[0].holds then Rejected(checks[0].failure)
    else
      var v := FirstFailing(checks[1..]);
      assert forall i :: 1 <= i < |checks| ==> checks[1..][i - 1] == checks[i];
      v
  }
}
