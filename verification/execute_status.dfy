/**
 * The `execute` edge function: runs the code through the backend and picks
 * the HTTP status from the result's error list. The backend `compileAndRun`
 * is not part of this model; its outcome is an input.
 */
module ExecuteStatus {
  import opened Wrappers

  /** One entry of `result.errors`; only its `type` matters to the status. */
  datatype ErrorEntry = ErrorEntry(kind: string, message: string)

  /** The backend's result; `payload` stands for every other field, passed through untouched. */
  datatype ExecResult = ExecResult(errors: Option<seq<ErrorEntry>>, payload: string)

  /** What happened before the response: parsing the body or the backend threw, or the backend returned. */
  datatype Outcome = Threw(message: string) | Returned(result: ExecResult)

  datatype ResponseBody = Result(result: ExecResult) | InternalError(error: string, details: string)

  datatype Response = Response(status: int, body: ResponseBody)

  predicate IsCompilationError(e: ErrorEntry) {
    e.kind == "compilation"
  }

  /** 200 without errors, 400 when one of them is a compilation error, 500 otherwise. */
  function StatusFor(errors: Option<seq<ErrorEntry>>): (status: int)
    ensures status == 200 <==> errors.None? || |errors.value| == 0
    ensures status == 400 <==> errors.Some? && exists e :: e in errors.value && IsCompilationError(e)
    ensures status == 500 <==> errors.Some? && |errors.value| > 0
                               && forall e :: e in errors.value ==> !IsCompilationError(e)
  {
    match errors
    case None => 200
    case Some(es) =>
      if |es| == 0 then 200
      else if exists e :: e in es && IsCompilationError(e) then 400
      else 500
  }

  /** The handler: the result is sent back unchanged under its status; any exception becomes a 500. */
  function Handle(outcome: Outcome): (r: Response)
    ensures outcome.Threw? ==> r == Response(500, InternalError("Internal server error", outcome.message))
    ensures outcome.Returned? ==> r.body == Result(outcome.result) && r.status == StatusFor(outcome.result.errors)
    ensures r.status in {200, 400, 500}
    ensures r.status == 200 ==> outcome.Returned?
  {
    match outcome
    case Threw(message) => Response(500, InternalError("Internal server error", message))
    case Returned(result) => Response(StatusFor(result.errors), Result(result))
  }

  /** A compilation error decides the status even when runtime errors come with it. */
  lemma CompilationErrorWins(es: seq<ErrorEntry>, payload: string)
    requires exists k :: 0 <= k < |es| && IsCompilationError(es[k])
    ensures Handle(Returned(ExecResult(Some(es), payload))).status == 400
  {
    var k :| 0 <= k < |es| && IsCompilationError(es[k]);
    assert es[k] in es;
  }
}
