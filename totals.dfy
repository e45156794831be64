/**
 * GrandTotals' directory and file counters, and the exit-code ladder of
 * calculate_verification_status.
 */
module Totals {
  import opened VerifyResults

  class GrandTotals {
    var directoriesProcessed: nat
    var directoriesSuccess: nat
    var directoriesNoShasum: nat
    var directoriesPartial: nat
    var directoriesFailed: nat
    var filesVerified: nat
    var filesFailed: nat
    var filesMissing: nat
    var filesExtra: nat

    /** Every processed directory is filed in exactly one category. */
    ghost predicate Valid()
      reads this
    {
      directoriesProcessed == directoriesSuccess + directoriesNoShasum + directoriesPartial + directoriesFailed
    }

    /** The counters after reset(). */
    constructor()
      ensures Valid()
      ensures directoriesProcessed == 0 && filesVerified == 0 && filesFailed == 0
      ensures filesMissing == 0 && filesExtra == 0
    {
      directoriesProcessed := 0;
      directoriesSuccess := 0;
      directoriesNoShasum := 0;
      directoriesPartial := 0;
      directoriesFailed := 0;
      filesVerified := 0;
      filesFailed := 0;
      filesMissing := 0;
      filesExtra := 0;
    }

    /**
     * add_directory_result: one more directory, counted in the category its
     * result falls in; a report also adds its list lengths to the file counters.
     */
    method AddDirectoryResult(r: VerifyResult)
      requires Valid()
      modifies this
      ensures Valid()
      ensures directoriesProcessed == old(directoriesProcessed) + 1
      ensures directoriesSuccess == old(directoriesSuccess) + (if Classify(r) == Success then 1 else 0)
      ensures directoriesNoShasum == old(directoriesNoShasum) + (if Classify(r) == NoShasum then 1 else 0)
      ensures directoriesPartial == old(directoriesPartial) + (if Classify(r) == Partial then 1 else 0)
      ensures directoriesFailed == old(directoriesFailed) + (if Classify(r) == Failed then 1 else 0)
      ensures r.VerifyError? ==>
        (filesVerified == old(filesVerified) && filesFailed == old(filesFailed) &&
         filesMissing == old(filesMissing) && filesExtra == old(filesExtra))
      ensures r.Report? ==>
        (filesVerified == old(filesVerified) + |r.verified| && filesFailed == old(filesFailed) + |r.failed| &&
         filesMissing == old(filesMissing) + |r.missing| && filesExtra == old(filesExtra) + |r.extra|)
    {
      directoriesProcessed := directoriesProcessed + 1;
      match r {
        case VerifyError(msg) =>
          if Text.Contains(msg, NoShasumText) {
            directoriesNoShasum := directoriesNoShasum + 1;
          } else {
            directoriesFailed := directoriesFailed + 1;
          }
        case Report(v, f, m, e) =>
          filesVerified := filesVerified + |v|;
          filesFailed := filesFailed + |f|;
          filesMissing := filesMissing + |m|;
          filesExtra := filesExtra + |e|;
          if |f| == 0 && |m| == 0 {
            if |e| == 0 {
              directoriesSuccess := directoriesSuccess + 1;
            } else {
              directoriesPartial := directoriesPartial + 1;
            }
          } else {
            directoriesFailed := directoriesFailed + 1;
          }
      }
    }
  }

  datatype Status = Status(text: string, exitCode: nat)

  /**
   * The status ladder of calculate_verification_status, given the number of
   * expected files (verified + failed + missing), the rounded success
   * percentage and the number of extra files.
   */
  function VerificationStatus(totalExpected: nat, successPercentage: int, extra: nat): (r: Status)
    ensures r.exitCode == 0 <==> extra == 0 && (totalExpected == 0 || successPercentage == 100)
    ensures r.exitCode in {0, 2, 3, 4, 5, 6, 7}
    ensures totalExpected > 0 && successPercentage <= 0 ==> r.exitCode == 7
  {
    if totalExpected == 0 then
      if extra > 0 then Status("UNEXPECTED FILES", 4) else Status("SUCCESS", 0)
    else if successPercentage == 100 && extra == 0 then Status("SUCCESS", 0)
    else if successPercentage == 100 then Status("SUCCESS", 2)
    else if successPercentage >= 99 then Status("ALMOST PERFECT", 2)
    else if successPercentage >= 95 then Status("SOME ISSUES", 3)
    else if successPercentage >= 80 then Status("FAILS", 4)
    else if successPercentage >= 50 then Status("MANY FAILS", 5)
    else if successPercentage > 0 then Status("MOSTLY FAILS", 6)
    else Status("FAILURE", 7)
  }

  /** Up to 100, a higher success percentage never gives a worse exit code. */
  lemma ExitCodeMonotone(totalExpected: nat, p: int, q: int, extra: nat)
    requires p <= q <= 100
    ensures VerificationStatus(totalExpected, q, extra).exitCode <= VerificationStatus(totalExpected, p, extra).exitCode
  {
  }
}
