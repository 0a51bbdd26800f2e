/**
 * The state transitions of the challenge page: the countdown (its start
 * value, one tick, and its `MM:SS` rendering), the completion check on the
 * program output, the reaction to a run's response, editing, and submitting.
 * Timers, alerts, navigation and browser storage are not modelled; the streak
 * read from storage is a parameter.
 */
module Challenge {
  import opened Wrappers
  import opened Text

  // ---------------------------------------------------------------------------
  // The countdown

  /** `n.toString().padStart(2, '0')`: at least two characters; below 100, two digits that read back as `n`. */
  lemma TwoDigits(n: nat)
    ensures n < 100 ==> |PadStart2(NatToString(n))| == 2
    ensures n >= 100 ==> |PadStart2(NatToString(n))| > 2
    ensures n < 100 ==> forall k :: 0 <= k < 2 ==> IsDigit(PadStart2(NatToString(n))[k])
    ensures n < 100 ==> DigitsValue(PadStart2(NatToString(n))) == n
  {
    var s := NatToString(n);
    if n < 10 {
      var r := PadStart2(s);
      assert r == ['0', s[0]];
      assert r[..1] == ['0'];
      assert DigitsValue(['0']) == 0 by {
        assert ['0'][..0] == [];
      }
    } else if n < 100 {
      assert |NatToString(n / 10)| == 1;
    } else {
      assert |NatToString(n / 10)| >= 2;
    }
  }

  /** `formatTime`: minutes and seconds, each at least two digits, joined by a colon. */
  function FormatTime(seconds: nat): (r: string)
    ensures seconds < 6000 ==>
              && |r| == 5 && r[2] == ':'
              && IsDigit(r[0]) && IsDigit(r[1]) && IsDigit(r[3]) && IsDigit(r[4])
              && DigitsValue(r[..2]) == seconds / 60
              && DigitsValue(r[3..]) == seconds % 60
    ensures seconds >= 6000 ==> |r| > 5
  {
    var mins := PadStart2(NatToString(seconds / 60));
    var secs := PadStart2(NatToString(seconds % 60));
    TwoDigits(seconds % 60);
    TwoDigits(seconds / 60);
    var r := mins + ":" + secs;
    assert seconds < 6000 ==> r[..2] == mins && r[3..] == secs;
    r
  }

  /** The rendered time reads back as the number of seconds it was made from. */
  lemma FormatTimeReadsBack(seconds: nat)
    requires seconds < 6000
    ensures DigitsValue(FormatTime(seconds)[..2]) * 60 + DigitsValue(FormatTime(seconds)[3..]) == seconds
  {
  }

  /** The countdown's start: `timeLimit * 60` seconds, or 0 when there is no (or a zero) limit. */
  function InitialRemaining(timeLimit: Option<int>): (seconds: int)
    ensures timeLimit.None? ==> seconds == 0
    ensures timeLimit.Some? ==> seconds == timeLimit.value * 60
  {
    match timeLimit
    case None => 0
    case Some(minutes) => if minutes == 0 then 0 else minutes * 60
  }

  datatype Tick = Tick(remaining: int, timeUp: bool)

  /** One second of the countdown: down by one, or to 0 with the time-up signal once at most one second is left. */
  function TickOnce(previous: int): (t: Tick)
    ensures t.timeUp <==> previous <= 1
    ensures t.timeUp ==> t.remaining == 0
    ensures !t.timeUp ==> t.remaining == previous - 1 && t.remaining >= 1
  {
    if previous <= 1 then Tick(0, true) else Tick(previous - 1, false)
  }

  /** `ticks` seconds of the countdown: it only runs while time remains, and stops after signalling time-up. */
  function Advance(remaining: int, ticks: nat): (t: Tick)
    decreases ticks
  {
    if ticks == 0 || remaining <= 0 then Tick(remaining, false)
    else
      var t := TickOnce(remaining);
      if t.timeUp then t else Advance(t.remaining, ticks - 1)
  }

  /** A countdown from `n` seconds signals time-up after exactly `n` ticks, and not before. */
  lemma {:induction false} CountdownLength(n: nat, ticks: nat)
    requires n > 0
    ensures ticks < n ==> Advance(n, ticks) == Tick(n - ticks, false)
    ensures ticks >= n ==> Advance(n, ticks) == Tick(0, true)
    decreases ticks
  {
    if ticks > 0 && n > 1 {
      CountdownLength(n - 1, ticks - 1);
    }
  }

  // ---------------------------------------------------------------------------
  // The completion check

  /** The output with SGR sequences removed and white space trimmed. */
  function CleanOutput(output: string): string {
    Trim(StripSgr(output))
  }

  /** `checkChallengeCompletion`: the verdict on the cleaned output. */
  function IsCompleted(output: string, challengeId: string, expectedOutput: string): bool {
    Verdict(CleanOutput(output), challengeId, expectedOutput)
  }

  /** The six digits the Fibonacci challenge looks for, each anywhere in the output. */
  predicate HasFibonacciDigits(clean: string) {
    && Contains(clean, "0") && Contains(clean, "1") && Contains(clean, "2")
    && Contains(clean, "3") && Contains(clean, "5") && Contains(clean, "8")
  }

  /**
   * A per-challenge test of the three daily challenges; for any other, the
   * expected output must appear. The first alternative of the array-sum and
   * Fibonacci tests adds nothing: each implies the second.
   */
  function Verdict(clean: string, challengeId: string, expectedOutput: string): (r: bool)
    ensures challengeId == "daily-001" ==> (r <==> Contains(clean, "15"))
    ensures challengeId == "daily-002" ==>
              (r <==> Contains(clean, "racecar is a palindrome")
                      || (Contains(clean, "palindrome") && !Contains(clean, "not")))
    ensures challengeId == "daily-003" ==> (r <==> HasFibonacciDigits(clean))
    ensures challengeId !in {"daily-001", "daily-002", "daily-003"} ==> (r <==> Contains(clean, Trim(expectedOutput)))
  {
    SumLineHasFifteen(clean);
    FibonacciLineHasDigits(clean);
    if challengeId == "daily-001" then
      Contains(clean, "Sum: 15") || Contains(clean, "15")
    else if challengeId == "daily-002" then
      Contains(clean, "racecar is a palindrome") || (Contains(clean, "palindrome") && !Contains(clean, "not"))
    else if challengeId == "daily-003" then
      || Contains(clean, "0 1 1 2 3 5 8 13 21 34")
      || (&& Contains(clean, "0") && Contains(clean, "1") && Contains(clean, "2")
          && Contains(clean, "3") && Contains(clean, "5") && Contains(clean, "8"))
    else Contains(clean, Trim(expectedOutput))
  }

  /** Output showing `Sum: 15` shows `15`. */
  lemma SumLineHasFifteen(clean: string)
    ensures Contains(clean, "Sum: 15") ==> Contains(clean, "15")
  {
    if Contains(clean, "Sum: 15") {
      assert "Sum: " + "15" + "" == "Sum: 15";
      ContainsInfix(clean, "Sum: ", "15", "");
    }
  }

  /** Output containing a text contains each of its characters. */
  lemma {:induction false} CharOfContained(clean: string, line: string, i: nat)
    requires Contains(clean, line) && i < |line|
    ensures Contains(clean, [line[i]])
  {
    assert line[..i] + [line[i]] + line[i + 1..] == line;
    ContainsInfix(clean, line[..i], [line[i]], line[i + 1..]);
  }

  /** Output showing the first ten Fibonacci numbers shows each of the six digits. */
  lemma {:induction false} FibonacciLineHasDigits(clean: string)
    ensures Contains(clean, "0 1 1 2 3 5 8 13 21 34") ==> HasFibonacciDigits(clean)
  {
    var line := "0 1 1 2 3 5 8 13 21 34";
    if Contains(clean, line) {
      CharOfContained(clean, line, 0);
      CharOfContained(clean, line, 2);
      CharOfContained(clean, line, 6);
      CharOfContained(clean, line, 8);
      CharOfContained(clean, line, 10);
      CharOfContained(clean, line, 12);
      assert [line[0]] == "0" && [line[2]] == "1" && [line[6]] == "2";
      assert [line[8]] == "3" && [line[10]] == "5" && [line[12]] == "8";
    }
  }

  /** The Fibonacci challenge accepts any output holding the six digits, in whatever order. */
  lemma FibonacciNeedsOnlyDigits(output: string, expectedOutput: string)
    ensures IsCompleted(output, "daily-003", expectedOutput) <==> HasFibonacciDigits(CleanOutput(output))
  {
  }

  /** Without the exact sentence, a palindrome verdict that mentions `not` anywhere is refused. */
  lemma PalindromeRefusesNot(output: string, expectedOutput: string)
    requires !Contains(CleanOutput(output), "racecar is a palindrome")
    requires Contains(CleanOutput(output), "not")
    ensures !IsCompleted(output, "daily-002", expectedOutput)
  {
  }

  /** The array-sum challenge is completed exactly when "15" appears in the cleaned output. */
  lemma ArraySumNeedsFifteen(output: string, expectedOutput: string)
    ensures IsCompleted(output, "daily-001", expectedOutput) <==> Contains(CleanOutput(output), "15")
  {
  }

  /** The palindrome challenge accepts its exact sentence whatever else the output says. */
  lemma PalindromeSentenceSuffices(output: string, expectedOutput: string)
    requires Contains(CleanOutput(output), "racecar is a palindrome")
    ensures IsCompleted(output, "daily-002", expectedOutput)
  {
  }

  /** Other challenges are completed exactly when the trimmed expected output appears in the cleaned output. */
  lemma OtherChallengesMatchExpected(output: string, challengeId: string, expectedOutput: string)
    requires challengeId !in {"daily-001", "daily-002", "daily-003"}
    ensures IsCompleted(output, challengeId, expectedOutput) <==> Contains(CleanOutput(output), Trim(expectedOutput))
  {
  }

  /** A leading SGR sequence never changes the verdict. */
  lemma ColourDoesNotMatter(params: string, output: string, challengeId: string, expectedOutput: string)
    requires forall k :: 0 <= k < |params| ==> IsSgrParam(params[k])
    ensures IsCompleted(Sgr(params) + output, challengeId, expectedOutput)
            == IsCompleted(output, challengeId, expectedOutput)
  {
    StripLeadingSgr(params, output);
    assert CleanOutput(Sgr(params) + output) == CleanOutput(output);
  }

  // ---------------------------------------------------------------------------
  // Page state

  datatype PageState = PageState(code: string, output: string, hasError: bool, isCompleted: bool)

  /** Editing the code stores it and always clears the completion flag. */
  function EditCode(st: PageState, newCode: string): (r: PageState)
    ensures r.code == newCode && !r.isCompleted
    ensures r.output == st.output && r.hasError == st.hasError
  {
    st.(code := newCode, isCompleted := false)
  }

  /** The parsed answer of the execution endpoint. */
  datatype RunResponse = RunResponse(ok: bool, error: Option<string>, output: Option<string>)

  /** JavaScript truthiness of an optional string field. */
  predicate Truthy(s: Option<string>) {
    s.Some? && s.value != ""
  }

  const ExecutionErrorPrefix: string := Sgr("31") + "[Execution Error]" + Sgr("0") + "\n"
  const CompilationErrorPrefix: string := Sgr("31") + "[Compilation Error]" + Sgr("0") + "\n"
  const NoOutputMessage: string := "Program executed successfully (no output)"

  /** How the page takes a run's response: a failed request or a reported error shows in red and never completes. */
  function AfterRun(st: PageState, resp: RunResponse, challengeId: string, expectedOutput: string): (r: PageState)
    ensures r.code == st.code
    ensures !resp.ok ==> r.hasError && !r.isCompleted
                         && r.output == ExecutionErrorPrefix + (if Truthy(resp.error) then resp.error.value else "Execution failed")
    ensures resp.ok && Truthy(resp.error) ==> r.hasError && !r.isCompleted
                                              && r.output == CompilationErrorPrefix + resp.error.value
    ensures resp.ok && !Truthy(resp.error) ==>
              && !r.hasError
              && r.output == (if Truthy(resp.output) then resp.output.value else NoOutputMessage)
              && (r.isCompleted <==> IsCompleted(r.output, challengeId, expectedOutput))
  {
    if !resp.ok then
      var message := if Truthy(resp.error) then resp.error.value else "Execution failed";
      st.(output := ExecutionErrorPrefix + message, hasError := true, isCompleted := false)
    else if Truthy(resp.error) then
      st.(output := CompilationErrorPrefix + resp.error.value, hasError := true, isCompleted := false)
    else
      var shown := if Truthy(resp.output) then resp.output.value else NoOutputMessage;
      st.(output := shown, hasError := false, isCompleted := IsCompleted(shown, challengeId, expectedOutput))
  }

  datatype Submission = Submission(accepted: bool, streak: int)

  /** `handleSubmit`: accepted only when completed; the streak grows by one only for an accepted daily challenge. */
  function Submit(isCompleted: bool, isDaily: bool, streak: int): (r: Submission)
    ensures r.accepted <==> isCompleted
    ensures r.streak == streak || r.streak == streak + 1
    ensures r.streak == streak + 1 <==> isCompleted && isDaily
  {
    if isCompleted && isDaily then Submission(true, streak + 1)
    else Submission(isCompleted, streak)
  }

  /** Editing after a successful run means a submission is refused and the streak stays. */
  lemma EditThenSubmitRefused(st: PageState, newCode: string, isDaily: bool, streak: int)
    ensures Submit(EditCode(st, newCode).isCompleted, isDaily, streak) == Submission(false, streak)
  {
  }
}
