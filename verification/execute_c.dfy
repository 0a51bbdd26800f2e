/**
 * The `execute-c` edge function: the validation chain in front of the C
 * runner (method, presence of `code`, length cap, deny-list of dangerous
 * calls) and the runner's deterministic textual pre-checks.
 *
 * The runner's mock output generator (random addresses and numbers, a random
 * delay) is not modelled: the text it would print is the parameter
 * `programOutput`, and the elapsed milliseconds are the parameter `elapsed`.
 */
module ExecuteC {
  import opened Wrappers
  import opened Text

  const MaxCodeLength: nat := 10000

  /** The called names of the deny-list; each pattern is `name\s*\(`. */
  const DeniedCalls: seq<string> := ["system", "exec", "fork", "fopen", "remove", "unlink"]

  const SuccessBanner: string := "[Compilation successful]"

  /** What the runner prints before the program's own output when the pre-checks pass: the banner in green (SGR 32), then a reset (SGR 0) and a newline. */
  const SuccessPrefix: string := Sgr("32") + SuccessBanner + Sgr("0") + "\n"

  /** The `code` member of the parsed JSON body. */
  datatype CodeField = StringValue(text: string) | NonString

  /** A request body: unparseable (`req.json()` throws), or JSON with or without a `code` member. */
  datatype Body = Malformed(reason: string) | Json(code: Option<CodeField>)

  datatype Request = Request(verb: string, body: Body)

  /** The object `runCCodeSafely` resolves to. */
  datatype RunResult = RunResult(output: string, error: Option<string>, executionTime: int)

  datatype ResponseBody =
    | Preflight                                   // the plain text `ok`
    | ErrorMessage(error: string)                 // `{ error }`
    | Executed(result: RunResult)                 // the runner's result, as is
    | InternalError(error: string, details: string)

  datatype Response = Response(status: int, body: ResponseBody)

  // ---------------------------------------------------------------------------
  // Deny-list

  /** From index `k` on, the pattern tail `\s*\(` matches: white space, then `(`. */
  predicate ParenAfterSpaces(code: string, k: nat)
    decreases |code| - k
  {
    k < |code| && (code[k] == '(' || (IsSpace(code[k]) && ParenAfterSpaces(code, k + 1)))
  }

  /** The `(` at index `j` ends a run of white space that starts at index `k`. */
  ghost predicate SpacesThenParen(code: string, k: int, j: int) {
    0 <= k <= j < |code| && code[j] == '(' && forall m :: k <= m < j ==> IsSpace(code[m])
  }

  lemma {:induction false} ParenAfterSpacesMeaning(code: string, k: nat)
    ensures ParenAfterSpaces(code, k) <==> exists j :: SpacesThenParen(code, k, j)
    decreases |code| - k
  {
    if k < |code| {
      ParenAfterSpacesMeaning(code, k + 1);
      if ParenAfterSpaces(code, k) {
        if code[k] == '(' {
          assert SpacesThenParen(code, k, k);
        } else {
          var j :| SpacesThenParen(code, k + 1, j);
          assert SpacesThenParen(code, k, j);
        }
      }
      if j :| SpacesThenParen(code, k, j) {
        if j > k {
          assert IsSpace(code[k]) && SpacesThenParen(code, k + 1, j);
        }
      }
    }
  }

  /** The regular expression `name\s*\(` matches somewhere in `code`. */
  predicate MatchesCall(code: string, name: string) {
    exists i :: 0 <= i <= |code| - |name| && OccursAt(code, name, i) && ParenAfterSpaces(code, i + |name|)
  }

  /** `code` matches the pattern of some deny-listed call. */
  predicate Unsafe(code: string) {
    exists name :: name in DeniedCalls && MatchesCall(code, name)
  }

  /** A deny-listed name followed by white space and `(` anywhere in the code makes it unsafe. */
  lemma DeniedCallIsUnsafe(code: string, name: string, i: nat, j: nat)
    requires name in DeniedCalls && OccursAt(code, name, i)
    requires SpacesThenParen(code, i + |name|, j)
    ensures Unsafe(code)
  {
    ParenAfterSpacesMeaning(code, i + |name|);
    assert MatchesCall(code, name);
  }

  // ---------------------------------------------------------------------------
  // The runner's pre-checks

  /** The compile error the textual pre-checks report, in their order, if any. */
  function PreCheck(code: string): (e: Option<string>)
    ensures e.None? <==> Contains(code, "#include") && Contains(code, "main")
                         && multiset(code)['{'] == multiset(code)['}']
    ensures !Contains(code, "#include") ==> e == Some("compilation error: missing #include directive")
    ensures Contains(code, "#include") && !Contains(code, "main")
            ==> e == Some("compilation error: undefined reference to main")
    ensures Contains(code, "#include") && Contains(code, "main") && e.Some?
            ==> e == Some("compilation error: unmatched braces")
  {
    if !Contains(code, "#include") then Some("compilation error: missing #include directive")
    else if !Contains(code, "main") then Some("compilation error: undefined reference to main")
    else if Count(code, '{') != Count(code, '}') then Some("compilation error: unmatched braces")
    else None
  }

  /** `runCCodeSafely`: the pre-checks, then the success prefix in front of the program's output. */
  function RunCCodeSafely(code: string, programOutput: string, elapsed: int): (r: RunResult)
    ensures r.executionTime == elapsed
    ensures r.error == PreCheck(code)
    ensures r.error.Some? ==> r.output == ""
    ensures r.error.None? ==> r.output == SuccessPrefix + programOutput
  {
    match PreCheck(code)
    case Some(message) => RunResult("", Some(message), elapsed)
    case None => RunResult(SuccessPrefix + programOutput, None, elapsed)
  }

  // ---------------------------------------------------------------------------
  // The request handler

  /** `!code || typeof code !== 'string'` is false: `code` is a non-empty string. */
  predicate ValidCode(body: Body) {
    body.Json? && body.code.Some? && body.code.value.StringValue? && body.code.value.text != ""
  }

  /** The request passes every check of the handler and reaches the runner. */
  predicate Admitted(req: Request) {
    && req.verb == "POST"
    && ValidCode(req.body)
    && |req.body.code.value.text| <= MaxCodeLength
    && !Unsafe(req.body.code.value.text)
  }

  /** The handler: preflight, method, parse, presence, length, deny-list, run; the first failing check decides. */
  function Handle(req: Request, programOutput: string, elapsed: int): (r: Response)
    ensures req.verb == "OPTIONS" ==> r == Response(200, Preflight)
    ensures req.verb != "OPTIONS" && req.verb != "POST"
            ==> r == Response(405, ErrorMessage("Method not allowed"))
    ensures req.verb == "POST" && req.body.Malformed?
            ==> r == Response(500, InternalError("Internal server error", req.body.reason))
    ensures req.verb == "POST" && req.body.Json? && !ValidCode(req.body)
            ==> r == Response(400, ErrorMessage("Missing or invalid code parameter"))
    ensures req.verb == "POST" && ValidCode(req.body) && |req.body.code.value.text| > MaxCodeLength
            ==> r == Response(400, ErrorMessage("Code too long (max 10,000 characters)"))
    ensures req.verb == "POST" && ValidCode(req.body) && |req.body.code.value.text| <= MaxCodeLength
            && Unsafe(req.body.code.value.text)
            ==> r == Response(400, ErrorMessage("Code contains potentially unsafe operations"))
    ensures r.body.Executed? <==> Admitted(req)
    ensures Admitted(req)
            ==> r == Response(200, Executed(RunCCodeSafely(req.body.code.value.text, programOutput, elapsed)))
  {
    if req.verb == "OPTIONS" then Response(200, Preflight)
    else if req.verb != "POST" then Response(405, ErrorMessage("Method not allowed"))
    else match req.body
      case Malformed(reason) => Response(500, InternalError("Internal server error", reason))
      case Json(field) =>
        if !ValidCode(req.body) then Response(400, ErrorMessage("Missing or invalid code parameter"))
        else
          var code := field.value.text;
          if |code| > MaxCodeLength then Response(400, ErrorMessage("Code too long (max 10,000 characters)"))
          else if Unsafe(code) then Response(400, ErrorMessage("Code contains potentially unsafe operations"))
          else Response(200, Executed(RunCCodeSafely(code, programOutput, elapsed)))
  }

  // ---------------------------------------------------------------------------
  // Properties of the chain

  function PostCode(code: string): Request {
    Request("POST", Json(Some(StringValue(code))))
  }

  /** The length cap is inclusive: exactly 10,000 characters pass it, 10,001 do not. */
  lemma LengthCapIsInclusive(code: string, programOutput: string, elapsed: int)
    requires |code| == MaxCodeLength && !Unsafe(code)
    ensures Handle(PostCode(code), programOutput, elapsed).body.Executed?
    ensures Handle(PostCode(code + "x"), programOutput, elapsed)
            == Response(400, ErrorMessage("Code too long (max 10,000 characters)"))
  {
  }

  /** A request that fails the deny-list never reaches the runner, however its pre-checks would end. */
  lemma UnsafeNeverRuns(req: Request, programOutput: string, elapsed: int)
    requires req.body.Json? && req.body.code.Some? && req.body.code.value.StringValue?
    requires Unsafe(req.body.code.value.text)
    ensures !Handle(req, programOutput, elapsed).body.Executed?
    ensures Handle(req, programOutput, elapsed).status != 200 || req.verb == "OPTIONS"
  {
  }

  /** Every runner result, compile errors included, is sent with status 200. */
  lemma RunnerResultsAreOk(req: Request, programOutput: string, elapsed: int)
    ensures Handle(req, programOutput, elapsed).body.Executed?
            ==> Handle(req, programOutput, elapsed).status == 200
    ensures Admitted(req) && !Contains(req.body.code.value.text, "#include")
            ==> Handle(req, programOutput, elapsed).status == 200
                && Handle(req, programOutput, elapsed).body.result.error.Some?
  {
  }

  /** A compilable-looking program's output, stripped of SGR sequences, starts with the plain success banner. */
  lemma SuccessBannerWithoutColour(programOutput: string)
    ensures StripSgr(SuccessPrefix + programOutput) == SuccessBanner + "\n" + StripSgr(programOutput)
  {
    assert Esc !in SuccessBanner;
    StripColoured("32", SuccessBanner, "0", "\n", programOutput);
  }

  /** Each deny-listed call, written with or without a space before `(`, is refused. */
  lemma SpacedSystemCallIsUnsafe(before: string, after: string)
    ensures Unsafe(before + "system (" + after)
  {
    var code := before + "system (" + after;
    var i := |before|;
    assert code[i..i + 6] == "system";
    assert code[i + 7] == '(' && IsSpace(code[i + 6]);
    assert SpacesThenParen(code, i + 6, i + 7);
    DeniedCallIsUnsafe(code, "system", i, i + 7);
  }
}
