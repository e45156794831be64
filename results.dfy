/**
 * The dictionary the two verifiers return: either an error message, or the
 * four lists `verified`, `failed`, `missing` and `extra`.
 */
module VerifyResults {
  import opened Text

  /** One entry of the `failed` list: a hash mismatch, or the exception raised while hashing. */
  datatype Failure =
    | Mismatch(filename: string, expected: string, actual: string)
    | HashError(filename: string)
  {
    function Filename(): string
    {
      match this
      case Mismatch(n, _, _) => n
      case HashError(n) => n
    }
  }

  datatype VerifyResult =
    | VerifyError(message: string)
    | Report(verified: seq<string>, failed: seq<Failure>, missing: seq<string>, extra: set<string>)

  /** The four ways GrandTotals files a directory. */
  datatype Category = Success | NoShasum | Partial | Failed

  const NoShasumText: string := "No .shasum file found"

  /**
   * add_directory_result's classification: an error is "no .shasum" when its
   * message says so and a failure otherwise; a report succeeds when nothing
   * failed, went missing or is extra, is partial when only extra files are
   * found, and fails otherwise.
   */
  function Classify(r: VerifyResult): (c: Category)
    ensures c == Success <==> r.Report? && r.failed == [] && r.missing == [] && r.extra == {}
    ensures c == Partial <==> r.Report? && r.failed == [] && r.missing == [] && r.extra != {}
    ensures c == NoShasum <==> r.VerifyError? && Contains(r.message, NoShasumText)
  {
    match r
    case VerifyError(msg) => if Contains(msg, NoShasumText) then NoShasum else Failed
    case Report(v, f, m, e) =>
      if |f| == 0 && |m| == 0 then (if |e| == 0 then Success else Partial) else Failed
  }
}
