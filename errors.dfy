/** check_error: report an error and either return its status or end the process. */
module Errors {
  import opened ServerH

  /** What a call of check_error leads to: it returns a status (having reported the error or not), or it exits. */
  datatype ErrorCheck = Returned(status: int, reported: bool) | Exited

  /**
   * check_error(err_status, msg, exit_on_err): a nonzero status is reported;
   * with exit_on_err set as well the process exits, otherwise the status is
   * handed back unchanged.
   */
  function CheckError(errStatus: int, exitOnErr: int): (r: ErrorCheck)
    ensures exitOnErr == 0 ==> r == Returned(errStatus, errStatus != 0)
    ensures r.Exited? <==> errStatus != 0 && exitOnErr != 0
    ensures r.Returned? ==> r.status == errStatus && (r.reported <==> errStatus != 0)
  {
    if errStatus != 0 && exitOnErr != 0 then Exited
    else if errStatus != 0 then Returned(errStatus, true)
    else Returned(errStatus, false)
  }

  /** The value of the C expression (a && b). */
  function CAnd(a: int, b: int): int
  {
    if a != 0 && b != 0 then 1 else 0
  }

  /**
   * The header describes the result as (err_status && exit_on_err); the code
   * does not return that: with exit_on_err unset it returns err_status, and
   * whenever that conjunction would be 1 it exits instead of returning.
   */
  lemma ReturnIsNotTheDocumentedConjunction(errStatus: int, exitOnErr: int)
    requires CheckError(errStatus, exitOnErr).Returned?
    ensures CheckError(errStatus, exitOnErr).status == errStatus
    ensures CAnd(errStatus, exitOnErr) == 0
    ensures errStatus != 0 ==> CheckError(errStatus, exitOnErr).status != CAnd(errStatus, exitOnErr)
  {
  }

  /** The error path every handler takes: an intended error that is reported and returned as 1. */
  lemma IntendedErrorReturnsOne()
    ensures CheckError(INTENDED_ERROR, NO_EXIT_ON_ERROR) == Returned(1, true)
  {
  }
}
