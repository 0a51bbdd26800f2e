# Ceetorial core in Dafny

A Dafny model of the deterministic logic of Ceetorial, an interactive C
programming tutorial site. The model has three groups.

- **The code-execution pipeline and its guards.**
  - The `execute-c` edge function checks a request in order: method, a
    present string `code`, a length cap of 10,000 characters, and a
    deny-list of six call patterns (`name\s*\(`). Then it runs the runner's
    textual compile pre-checks: `#include` present, `main` present, and as
    many `{` as `}`.
  - The `middleware` edge function is a per-client sliding-window rate
    limiter: 10 requests per 60 s, answering 429 as in section 4 of
    RFC 6585.
  - The `execute` edge function picks the HTTP status from a result's error
    list.
  - The WebAssembly side has three guards. A scoped call-depth counter has
    two source copies with the same logic. A 10 MB memory ceiling check
    compares the memory size with a limit. The `memory_guard(ptr, size)`
    import bounds-checks one access.
- **Course data and learning progress.**
  - Lesson navigation over the ordered lessons of a course, and the shipped
    C course's lesson chain.
  - The progress hook's record updates: start a course, move to a lesson,
    complete a lesson (attempts and time add up), the completion
    percentage, and the completed test.
- **Page state transitions**, each extracted as a pure function:
  - the challenge page's timer, `MM:SS` rendering, completion check on the
    program output, and run, edit and submit transitions;
  - the daily-challenge page's challenge of the day, countdown to midnight,
    streak badges and start button;
  - the FAQ page's open-item toggle and search filter;
  - the comparison page's one-to-three language selection;
  - the cookie page's switches, where the essential switch cannot change;
  - the settings page's one-field update.

Every operation is a pure function over immutable values. Stateful parts
take their state and return the new one: the rate limiter's map, the stack
guard's counter and the page states. So do time (`now`, the milliseconds to
midnight, the day of the week), the runner's program output and elapsed
time, ISO timestamps and the size of the WebAssembly memory; all are
parameters.

Modules and files:

- `wrappers.dfy` (`Wrappers`): `Option`.
- `text.dfy` (`Text`): the JavaScript string operations the code relies on:
  - `includes`, `trim` with ECMAScript white space, and ASCII lowercasing;
  - decimal rendering and `padStart`;
  - removing SGR escape sequences (`ESC [ params m`, section 8.3.117 of
    ECMA-48) with the source's global, non-rescanning regular expression.
- `lists.dfy` (`Lists`): `filter(y => y !== x)` and no-duplicates lemmas,
  shared by the FAQ and comparison pages, and the first-index search
  shared by lesson navigation and the progress hook.
- One file per component:
  - `execute_c.dfy`, `rate_limiter.dfy`, `execute_status.dfy`;
  - `stack_guard.dfy`, `memory_guard.dfy`;
  - `lessons.dfy`, `progress.dfy`;
  - `challenge.dfy`, `daily_challenge.dfy`, `faq.dfy`, `compare.dfy`,
    `cookies.dfy`, `settings.dfy`.

The two execution endpoints treat compile errors differently. The
`execute` function answers 400 when a result carries a compilation error
(supabase/functions/execute/index.ts:8-9, `ExecuteStatus.StatusFor`). The
`execute-c` function sends every runner result, compile errors included,
with the default status 200 (supabase/functions/execute-c/index.ts:167-174,
`ExecuteC.RunnerResultsAreOk`).

## Model

| member | source | states |
|---|---|---|
| ExecuteC.PreCheck | supabase/functions/execute-c/index.ts:27-52 | No error exactly when `#include` and `main` occur and `{` and `}` are equally many. Otherwise the first failing check's message, in the order include, main, braces. |
| ExecuteC.RunCCodeSafely | supabase/functions/execute-c/index.ts:27-94 | The error is the pre-check's. With an error the output is empty. Without one it is the green `[Compilation successful]` banner, a reset and a newline, then the program's output. The elapsed time is passed through. |
| ExecuteC.ParenAfterSpacesMeaning | supabase/functions/execute-c/index.ts:146-153 | The recursive matcher for the pattern tail `\s*\(` holds exactly when a `(` follows a run of white space from that index. |
| ExecuteC.DeniedCallIsUnsafe | supabase/functions/execute-c/index.ts:146-165 | A deny-listed name followed by white space and `(` anywhere in the code makes the code unsafe. |
| ExecuteC.Handle | supabase/functions/execute-c/index.ts:105-189 | Each stage's response, in the fixed order: preflight 200; other methods 405; unparseable body 500; missing, empty or non-string `code` 400; over 10,000 characters 400; a deny-list match 400. The runner's result is sent exactly when every check passes, and then with 200. |
| ExecuteC.LengthCapIsInclusive | supabase/functions/execute-c/index.ts:135-143 | Exactly 10,000 safe characters reach the runner; one more character gets the 400 length error. |
| ExecuteC.UnsafeNeverRuns | supabase/functions/execute-c/index.ts:146-167 | Code that matches a deny-list pattern never reaches the runner and never gets 200, except as a preflight. |
| ExecuteC.RunnerResultsAreOk | supabase/functions/execute-c/index.ts:167-174 | Every runner result is sent with 200, including a compile error such as a missing `#include`. |
| ExecuteC.SuccessBannerWithoutColour | supabase/functions/execute-c/index.ts:89-93 | With its SGR sequences removed, the success prefix reads `[Compilation successful]` and a newline, followed by the stripped program output. |
| ExecuteC.SpacedSystemCallIsUnsafe | supabase/functions/execute-c/index.ts:147 | `system (` with a space before the parenthesis is refused wherever it occurs. |
| Text.Count | supabase/functions/execute-c/index.ts:44-45 | The number of matches of a one-character global regular expression is that character's multiplicity in the code. |
| RateLimiter.Prune | supabase/functions/middleware/index.ts:24 | A timestamp is kept exactly when it was stored and `now - t < 60000`, as often as it was stored; every other timestamp is dropped, and pruning never lengthens the list. |
| RateLimiter.PruneAppend | supabase/functions/middleware/index.ts:24 | Pruning distributes over concatenation, so the kept timestamps keep their order. |
| RateLimiter.PruneKeepsRecent | supabase/functions/middleware/index.ts:24 | A list whose every timestamp is in the window is kept whole. |
| RateLimiter.PruneDropsExpired | supabase/functions/middleware/index.ts:24 | A list whose every timestamp has left the window prunes to empty. |
| RateLimiter.IsRateLimited | supabase/functions/middleware/index.ts:12-35 | Limited exactly when at least 10 in-window timestamps exist for the key. A limited call stores nothing. An admitted call stores the pruned list plus `now`. No other key changes. A state with at most 10 timestamps per key keeps that bound. |
| RateLimiter.FirstCallAdmitted | supabase/functions/middleware/index.ts:17-34 | The first call from an unseen key is admitted and creates the entry `[now]`. |
| RateLimiter.AdmittedAfterWindow | supabase/functions/middleware/index.ts:21-34 | Once all of a key's timestamps are 60 s old, the key is admitted again with `[now]`. |
| RateLimiter.BurstFrom | supabase/functions/middleware/index.ts:24-34 | A key holding k timestamps at `now` admits the next 10 - k calls at that instant and limits every later one. |
| RateLimiter.BurstStep | supabase/functions/middleware/index.ts:24-34 | A key holding k timestamps all equal to `now` is limited with the state unchanged when k is 10; below 10 it is admitted and then holds k + 1 copies of `now`. |
| RateLimiter.FifteenAtOnce | supabase/functions/middleware/index.ts:15-34 | Fifteen calls at one instant from a fresh key: the first 10 are admitted and the last 5 limited. |
| RateLimiter.ClientKey | supabase/functions/middleware/index.ts:46 | The key is `x-real-ip`, else `x-forwarded-for`, else `unknown`; empty headers fall through and the key is never empty. |
| RateLimiter.Handle | supabase/functions/middleware/index.ts:37-69 | Preflight gets 200 and leaves the state alone. A limited client gets 429 "Too many requests" with the state unchanged. An admitted one gets 200 "Rate limit check passed" with the limiter's new state. The bound of 10 per key is preserved. |
| ExecuteStatus.StatusFor | supabase/functions/execute/index.ts:7-10 | 200 exactly when the errors are absent or empty. 400 exactly when some error is a compilation error. 500 exactly when there are errors and none is a compilation error. |
| ExecuteStatus.Handle | supabase/functions/execute/index.ts:1-19 | An exception gives 500 "Internal server error" with its message. A returned result is the body unchanged, under the status `StatusFor` picks from its error list; 200 only for a returned result. |
| ExecuteStatus.CompilationErrorWins | supabase/functions/execute/index.ts:8-9 | One compilation error among any others makes the status 400. |
| StackGuard.Enter | public/wasm/cpp/stack_guard.cpp:8-12 | The constructor raises the depth by one, even when it then throws. It throws "Stack depth limit exceeded" exactly when the new depth exceeds 1000. The copy here throws a JavaScript `Error`; the copy in src/lib/wasmCompiler.js (lines 9-12) has the same logic and throws `std::runtime_error`. |
| StackGuard.Exit | public/wasm/cpp/stack_guard.cpp:13 | The destructor lowers the depth by exactly one. |
| StackGuard.NestedWithinLimit | src/lib/wasmCompiler.js:8-20 | Nested guarded calls that stay within the ceiling succeed and leave the counter where it started. |
| StackGuard.NestedPastLimit | public/wasm/cpp/stack_guard.cpp:8-13 | Nested calls that pass the ceiling throw and leave the counter one above its start: the failing frame's increment is never undone. |
| StackGuard.ThousandDeep | public/wasm/cpp/stack_guard.cpp:3-11 | From the initial 0, 1000 nested guards succeed and restore 0; 1001 throw and leave 1. |
| StackGuard.LeakAccumulates | public/wasm/cpp/stack_guard.cpp:8-13 | After k overflowing runs only 1000 - k nested calls fit, and each further overflow adds one more. |
| StackGuard.ReplayNet | public/wasm/cpp/stack_guard.cpp:8-14 | Without a throw, a trace of constructions and destructions moves the depth by their difference, so a balanced trace restores it. |
| StackGuard.EnterCorrected | public/wasm/cpp/stack_guard.cpp:8-12 | Corrected guard: a refused entry leaves the depth as it found it. |
| StackGuard.NestedCorrectedRestores | public/wasm/cpp/stack_guard.cpp:6-20 | With the corrected guard every run, overflowing or not, restores the counter. It throws exactly when the nesting exceeds the room left. |
| MemoryGuard.NewGuard | src/lib/wasmMemoryGuard.js:2-5 | The byte limit is `limitMB * 1024 * 1024`, and dividing it by 1,048,576 gives `limitMB` back. |
| MemoryGuard.DefaultGuard | src/lib/wasmMemoryGuard.js:2-4 | The default limit is 10,485,760 bytes. |
| MemoryGuard.Check | src/lib/wasmMemoryGuard.js:7-13 | Fails exactly when the memory is strictly larger than the limit, with the message naming both sizes. |
| MemoryGuard.CheckIgnoresAccess | src/lib/wasmMemoryGuard.js:7-13 | The outcome is the same for every `ptr` and `size`. |
| MemoryGuard.DefaultLimitIsInclusive | src/lib/wasmMemoryGuard.js:8-11 | Exactly 10 MB passes the default guard, and one byte more fails. |
| MemoryGuard.AccessGuard | src/lib/wasmExecutor.js:21-26 | Fails with "Memory access violation at ptr" exactly when `ptr + size` exceeds the memory size. |
| MemoryGuard.AccessAtEndAllowed | src/lib/wasmExecutor.js:23 | An access ending exactly at the end of memory passes, and so does an empty one at the end; one byte past fails. |
| MemoryGuard.AccessBelowStartPasses | src/lib/wasmExecutor.js:23 | Only the upper end is checked: an access starting at a negative address passes. |
| Lists.FirstIndex | src/data/lessons.ts:690 | The first index whose key is the id, or -1 exactly when no element has that key. |
| Lists.FirstIndexAt | src/data/lessons.ts:690 | An element preceded by none with its key is the one the search finds. |
| Lessons.FindCourse | src/data/lessons.ts:682 | None exactly when no course has the id; otherwise a course with the id that no earlier course shares. |
| Lessons.GetLessonById | src/data/lessons.ts:681-684 | Some lesson exactly when both the course and the lesson are found, and then the lesson at the first index with that id in the first course with that id. |
| Lessons.GetNextLesson | src/data/lessons.ts:686-694 | None for an unknown course, an unknown lesson or the last lesson; otherwise the lesson at the next index. |
| Lessons.GetPreviousLesson | src/data/lessons.ts:696-704 | None when the index is at most 0, covering the first lesson and an unknown one; otherwise the lesson at the previous index. |
| Lessons.IndexOfUnique | src/data/lessons.ts:690 | With unique ids, finding a lesson's id gives back its own index. |
| Lessons.PreviousOfNext | src/data/lessons.ts:686-704 | With unique ids, the previous lesson of the next lesson is the lesson itself. |
| Lessons.NextOfPrevious | src/data/lessons.ts:686-704 | With unique ids, the next lesson of the previous lesson is the lesson itself. |
| Lessons.CourseChainIsLinked | src/data/lessons.ts:48-674 | The shipped lesson ids are unique. Lessons 2 to 5 name their predecessor as prerequisite, and lessons 1 to 4 name their successor as next. |
| Lessons.FindsCCourse | src/data/lessons.ts:679 | The catalogue finds the C course under `c-programming`. |
| Lessons.DanglingNextLesson | src/data/lessons.ts:673-676 | The fifth lesson names `c-006` as next, and no such lesson can be found. |
| Lessons.NavigationStopsAtFive | src/data/lessons.ts:35 | Navigation has no lesson after `c-005`, while the course announces 24 lessons and holds 5. |
| Progress.GetCourseProgress | src/hooks/useProgress.ts:57-59 | The first record of the course, or none exactly when no record has that course. |
| Progress.StartCourse | src/hooks/useProgress.ts:61-75 | No change for a started course. Otherwise one record is appended after the unchanged others, with the first lesson current, no completions and no time. |
| Progress.StartCourseIdempotent | src/hooks/useProgress.ts:61-75 | After starting, the course has a record, and starting it again changes nothing. |
| Progress.UpdateCurrentLesson | src/hooks/useProgress.ts:77-84 | Records of the course get the new current lesson and access time; every other record is unchanged. |
| Progress.UpdateCurrentLessonEffect | src/hooks/useProgress.ts:77-84 | Afterwards the course reports the new lesson, and the lookup of any other course gives the same answer. |
| Progress.FindOther | src/hooks/useProgress.ts:58 | If the ids line up and a course's records are unchanged, looking that course up gives the same answer. |
| Progress.RecordCompletion | src/hooks/useProgress.ts:90-106 | A first completion appends a completed entry with one attempt and the time spent. A repeat adds one attempt and the time to the existing entry and adds no entry. |
| Progress.CompleteLesson | src/hooks/useProgress.ts:86-117 | Records of the course record the completion and add the time to their total, keeping their current lesson and start time, and take `now` as their last access time; other records are unchanged. |
| Progress.CompleteUnstartedIsNoOp | src/hooks/useProgress.ts:87-88 | Completing a lesson of a course that was never started changes nothing. |
| Progress.RecordCompletionKeepsUnique | src/hooks/useProgress.ts:90-106 | Recording a completion never creates a second entry for a lesson. |
| Progress.IsLessonCompleted | src/hooks/useProgress.ts:126-129 | True exactly when the course's first record holds an entry for the lesson marked completed. |
| Progress.RecordCompletionCompletes | src/hooks/useProgress.ts:97-106 | Entries stay completed, and the lesson then has a completed entry. |
| Progress.CompletedAfterCompleteLesson | src/hooks/useProgress.ts:86-129 | After completing a lesson of a started course whose entries are all marked completed, as every entry the hook creates is, the lesson counts as completed. |
| Progress.FirstAt | src/hooks/useProgress.ts:58 | A record preceded by no record of its course is the one the lookup finds. |
| Progress.RoundedPercent | src/hooks/useProgress.ts:123 | The percentage is within half a unit of the exact `100 * count / total`, halves rounding up, as `Math.round` does on an exact ratio. |
| Progress.GetCompletionPercentage | src/hooks/useProgress.ts:119-124 | 0 without a record; otherwise the rounded percentage that the record's lesson entries make of the total. |
| Progress.RoundedPercentBounds | src/hooks/useProgress.ts:123 | At most 100 while the entries do not outnumber the lessons, and exactly 100 when they are equal. |
| Progress.RoundedPercentMonotone | src/hooks/useProgress.ts:123 | More completed entries never give a smaller percentage. |
| Challenge.TwoDigits | src/pages/Challenge.tsx:76 | Below 100, `padStart(2, '0')` of the decimal gives two digits that read back as the number; from 100 on, more than two characters. |
| Challenge.FormatTime | src/pages/Challenge.tsx:73-77 | Below 100 minutes, five characters: two digits of minutes, a colon, and two digits of seconds, reading back as `s div 60` and `s mod 60`. |
| Challenge.FormatTimeReadsBack | src/pages/Challenge.tsx:73-77 | Minutes times 60 plus seconds, read back from the text, is the number rendered. |
| Challenge.InitialRemaining | src/pages/Challenge.tsx:41 | The timer starts at `timeLimit * 60` seconds, or 0 without a limit. |
| Challenge.TickOnce | src/pages/Challenge.tsx:54-61 | A tick signals time-up and sets 0 exactly when at most one second was left; otherwise it counts down by one. |
| Challenge.CountdownLength | src/pages/Challenge.tsx:52-61 | A countdown from n seconds signals time-up after exactly n ticks and not before. |
| Challenge.Verdict | src/pages/Challenge.tsx:88-105 | Per challenge on the cleaned output: `daily-001` exactly when `15` appears; `daily-002` exactly when the racecar sentence appears, or `palindrome` does and `not` does not; `daily-003` exactly when each of the digits 0, 1, 2, 3, 5 and 8 appears; any other exactly when the trimmed expected output appears. |
| Challenge.SumLineHasFifteen | src/pages/Challenge.tsx:90-91 | Output containing `Sum: 15` contains `15`, so the first test of `daily-001` adds nothing. |
| Challenge.CharOfContained | src/pages/Challenge.tsx:98-100 | Output containing a text contains each of its characters. |
| Challenge.FibonacciLineHasDigits | src/pages/Challenge.tsx:98-100 | Output containing `0 1 1 2 3 5 8 13 21 34` contains each of the six digits, so the first test of `daily-003` adds nothing. |
| Challenge.FibonacciNeedsOnlyDigits | src/pages/Challenge.tsx:86-100 | `daily-003` is completed exactly when the cleaned output holds the six digits, in any order and in any numbers. |
| Challenge.PalindromeRefusesNot | src/pages/Challenge.tsx:86-95 | Without the exact racecar sentence, `daily-002` is refused whenever `not` appears anywhere in the cleaned output. |
| Challenge.ArraySumNeedsFifteen | src/pages/Challenge.tsx:90-91 | `daily-001` is completed exactly when the cleaned output contains `15`. |
| Challenge.PalindromeSentenceSuffices | src/pages/Challenge.tsx:93-95 | `daily-002` accepts `racecar is a palindrome`, whatever else the output says. |
| Challenge.OtherChallengesMatchExpected | src/pages/Challenge.tsx:103-105 | Other challenges are completed exactly when the cleaned output contains the trimmed expected output. |
| Challenge.ColourDoesNotMatter | src/pages/Challenge.tsx:87 | A leading SGR sequence never changes the verdict. |
| Challenge.EditCode | src/pages/Challenge.tsx:79-83 | Editing stores the code and always clears completion; output and error flag stay. |
| Challenge.AfterRun | src/pages/Challenge.tsx:176-203 | A failed request shows the red execution error. A reported error shows the red compilation error. Neither completes. Otherwise the output, or the no-output message, is shown without error, and completion is the check's verdict on it. |
| Challenge.Submit | src/pages/Challenge.tsx:209-226 | Accepted exactly when completed; the streak grows by one exactly for a completed daily challenge and otherwise stays. |
| Challenge.EditThenSubmitRefused | src/pages/Challenge.tsx:79-219 | After an edit, a submission is refused and the streak stays. |
| Text.StripSgr | src/pages/Challenge.tsx:87 | Removing SGR sequences never lengthens the text. |
| Text.StripSgrOnlyDeletes | src/pages/Challenge.tsx:87 | Removing SGR sequences only deletes characters: the result's multiset is within the input's. |
| Text.StripColoured | src/pages/Challenge.tsx:87 | A coloured segment between two SGR sequences strips to the plain segment. |
| Text.Trim | src/pages/Challenge.tsx:87 | The result is a slice of the input with no white space at either end, and everything cut off is white space. |
| Text.TrimOfTrimmed | src/pages/Challenge.tsx:105 | Trimming twice is trimming once. |
| Text.TrimStart | src/pages/Challenge.tsx:87 | The result is a suffix that does not start with white space, and only white space was cut. |
| Text.TrimEnd | src/pages/Challenge.tsx:87 | The result is a prefix that does not end with white space, and only white space was cut. |
| Text.StripLeadingSgr | src/pages/Challenge.tsx:87 | A leading SGR sequence is removed and the rest is stripped as if it were not there. |
| Text.StripPlainPrefix | src/pages/Challenge.tsx:87 | Text without an escape character passes through unchanged before the stripped rest. |
| Text.StripNoEsc | src/pages/Challenge.tsx:87 | Text without an escape character is left unchanged. |
| Text.ContainsInfix | src/pages/Challenge.tsx:90-91 | Output containing a longer text contains every piece of it; so containing `Sum: 15` implies containing `15`. |
| Text.NatToString | src/pages/Challenge.tsx:76 | `toString()` of a whole number: at least one digit, no leading zero except for 0 itself, reading back as the number. |
| Text.PadStart2 | src/pages/Challenge.tsx:76 | `padStart(2, '0')`: texts of two or more characters are unchanged; shorter ones get leading zeros up to two characters and end with the original. |
| DailyChallenge.TodaysChallengeIndex | src/pages/DailyChallenge.tsx:149-150 | For a day of the week, a valid index congruent to the day modulo 3. |
| DailyChallenge.EveryChallengeEachWeek | src/pages/DailyChallenge.tsx:149-150 | Each challenge is today's on some day of the week, and two consecutive days never share a challenge. |
| DailyChallenge.SaturdayRepeatsSunday | src/pages/DailyChallenge.tsx:149-150 | Sunday, Wednesday and Saturday all give `daily-001`. |
| DailyChallenge.Countdown | src/pages/DailyChallenge.tsx:172-183 | Minutes and seconds are below 60; h·3600000 + m·60000 + s·1000 ≤ diff < that + 1000; at most 24 hours for a day or less. |
| DailyChallenge.DivisionSplit | src/pages/DailyChallenge.tsx:178-180 | The three floors recombine into `diff` minus its milliseconds, with minutes and seconds below 60. |
| DailyChallenge.CountdownUnique | src/pages/DailyChallenge.tsx:178-180 | Any normal clock within a second below `diff` is the countdown, so the decomposition is the only one. |
| DailyChallenge.CountdownText | src/pages/DailyChallenge.tsx:182 | The text is the hours, `h `, the minutes, `m `, the seconds and `s`, each at its place, and is five characters longer than the three numbers. |
| DailyChallenge.CountdownTextReadsBack | src/pages/DailyChallenge.tsx:182 | The three numbers read back from their places in the text are the countdown's hours, minutes and seconds. |
| DailyChallenge.CountdownTextExample | src/pages/DailyChallenge.tsx:178-182 | 61.5 s before midnight reads `0h 1m 1s`. |
| DailyChallenge.CountdownExample | src/pages/DailyChallenge.tsx:178-182 | 61.5 s before midnight shows 0 h 1 m 1 s. |
| DailyChallenge.StreakBadge | src/pages/DailyChallenge.tsx:212-218 | No badge exactly below 3 days, and Diamond exactly from 30. |
| DailyChallenge.BadgeThresholds | src/pages/DailyChallenge.tsx:212-218 | A streak earns at least a given badge exactly when it reaches that badge's threshold: 3, 7, 14 or 30. |
| DailyChallenge.BadgeMonotone | src/pages/DailyChallenge.tsx:212-218 | A longer streak never earns a lower badge. |
| DailyChallenge.Start | src/pages/DailyChallenge.tsx:185-201 | Signed out goes home. With a user and a challenge the editor opens, on a path ending in the challenge id. Otherwise nothing happens. |
| DailyChallenge.StartDistinguishesChallenges | src/pages/DailyChallenge.tsx:198 | Different challenges open different editor pages. |
| Faq.ToggleItem | src/pages/FAQ.tsx:11-17 | The item's membership flips and every other item's stays; a closed item is appended at the end. |
| Faq.ToggleKeepsNoDuplicates | src/pages/FAQ.tsx:13-15 | The open list never holds an item twice. |
| Faq.ToggleTwiceSameItems | src/pages/FAQ.tsx:11-17 | Toggling twice gives back the same set of open items. |
| Faq.OpenThenCloseRestores | src/pages/FAQ.tsx:11-17 | Opening a closed item and closing it gives back the very same list. |
| Faq.FilterQuestions | src/pages/FAQ.tsx:133-136 | A question is kept exactly when it matches the lowercased term in its question or answer. |
| Faq.FilterQuestionsAppend | src/pages/FAQ.tsx:133-136 | Filtering distributes over concatenation, so the questions keep their order. |
| Faq.FilterQuestionsCons | src/pages/FAQ.tsx:133-136 | The first question is kept exactly when it matches, in front of the filtered rest. |
| Text.ToLower | src/pages/FAQ.tsx:134-135 | Lowercasing keeps the length and maps every character on its own. |
| Faq.NarrowAll | src/pages/FAQ.tsx:131-135 | Each category in place, narrowed to its matching questions. |
| Faq.FilteredFaqs | src/pages/FAQ.tsx:131-137 | Every shown category is a narrowed category with a question, and every narrowed category with a question is shown. |
| Faq.FilteredFaqsAppend | src/pages/FAQ.tsx:131-137 | Filtering categories distributes over concatenation, so categories keep their order. |
| Faq.EmptyTermMatches | src/pages/FAQ.tsx:134-135 | The empty term matches every question. |
| Faq.EmptySearchKeepsQuestions | src/pages/FAQ.tsx:134-135 | An empty search keeps every question of a category. |
| Faq.EmptySearchKeepsAll | src/pages/FAQ.tsx:131-137 | An empty search shows every non-empty category unchanged. |
| Faq.GlobalIndex | src/pages/FAQ.tsx:179 | Below 100 questions per category, the category and question positions can be read back from the number. |
| Faq.GlobalIndexInjective | src/pages/FAQ.tsx:179 | Below 100 questions per category, two questions never share a number. |
| Faq.GlobalIndexCollidesPastBlock | src/pages/FAQ.tsx:179 | The hundredth question of a category shares its number with the next category's first. |
| Faq.ShownOpen | src/pages/FAQ.tsx:179-180 | As written, a shown question is open exactly when some open number decodes to its category position and question position; which question sits there plays no part. |
| Faq.ShownAt | src/pages/FAQ.tsx:171-179 | The question at a shown position belongs to that shown category and matches the term. |
| Faq.SearchMatchesSecondOnly | src/pages/FAQ.tsx:134-135 | The term `b` matches the question `b` and not the question `a`. |
| Faq.SearchForSecond | src/pages/FAQ.tsx:131-137 | Searching `b` narrows the example's category to its second question. |
| Faq.OpenStateFollowsPosition | src/pages/FAQ.tsx:179-185 | Open the first question, then search for the second: the second now shows open. |
| Faq.ToggleQuestion | src/pages/FAQ.tsx:11-17 | Corrected toggle on questions: the clicked question's membership flips, every other stays. |
| Faq.CorrectedOpenFollowsQuestion | src/pages/FAQ.tsx:179-185 | With the correction, clicking a shown question opens that question and no other. |
| Faq.CorrectedExample | src/pages/FAQ.tsx:179-185 | With the correction, the example's unopened question stays closed after the search. |
| Lists.Remove | src/pages/FAQ.tsx:14 | Every occurrence of the element is removed, every other element's membership stays, and nothing changes when it is absent. |
| Lists.RemoveAppend | src/pages/Compare.tsx:112 | Removal distributes over concatenation, so the rest keep their order. |
| Lists.RemoveKeepsNoDuplicates | src/pages/Compare.tsx:112 | Removal keeps a list free of duplicates and shortens it by exactly one when the element was there. |
| Lists.AppendKeepsNoDuplicates | src/pages/Compare.tsx:115 | Appending an absent element keeps a list free of duplicates. |
| Lists.RemoveAppended | src/pages/FAQ.tsx:13-15 | Removing an element just appended to a list without it undoes the append. |
| Compare.ToggleLanguage | src/pages/Compare.tsx:109-117 | Deselect removes the language unless it is the only one. Select appends it unless three are selected. Whenever something changes, the language's membership flips. |
| Compare.InitialValid | src/pages/Compare.tsx:9 | The initial `c`, `cpp` is a valid selection. |
| Compare.ToggleKeepsValid | src/pages/Compare.tsx:109-117 | Each toggle keeps one to three distinct languages. |
| Compare.ToggleAll | src/pages/Compare.tsx:109-117 | A series of clicks keeps a valid selection valid. |
| Compare.ReachableValid | src/pages/Compare.tsx:9-117 | Whatever is clicked from the initial selection, one to three distinct languages are compared. |
| Compare.LastLanguageStays | src/pages/Compare.tsx:110-113 | Deselecting the only language is ignored. |
| Compare.FourthLanguageRefused | src/pages/Compare.tsx:114-116 | Selecting a new language while three are selected is ignored. |
| Compare.DeselectKeepsOrder | src/pages/Compare.tsx:112 | Deselecting removes only that language, keeping the others in order. |
| Compare.ExampleClicks | src/pages/Compare.tsx:9-117 | Adding `rust` then removing `c` leaves `cpp`, `rust`. |
| Cookies.Toggle | src/pages/Cookies.tsx:15-22 | Toggling essential changes nothing. Any other switch flips, and every other switch stays. |
| Cookies.ToggleTwice | src/pages/Cookies.tsx:15-22 | Toggling the same switch twice is the identity. |
| Cookies.ToggleAll | src/pages/Cookies.tsx:15-22 | A series of clicks never changes the essential switch. |
| Cookies.EssentialAlwaysOn | src/pages/Cookies.tsx:8-22 | From the initial settings, essential cookies are on whatever is clicked. |
| Cookies.TogglesCommute | src/pages/Cookies.tsx:18-21 | Two toggles in either order give the same settings. |
| Settings.SectionOf | src/pages/Settings.tsx:77-78 | A missing section spreads as an empty record. |
| Settings.HandleInputChange | src/pages/Settings.tsx:74-82 | The field holds the value. The section's fields are the old ones plus this one, with the others unchanged. The sections are the old ones plus this one, with the others unchanged. |
| Settings.ChangeIdempotent | src/pages/Settings.tsx:74-82 | The same update twice equals it once. |
| Settings.ChangesCommute | src/pages/Settings.tsx:74-82 | Updates of two different fields commute. |
| Settings.LastChangeWins | src/pages/Settings.tsx:77-79 | A later update of the same field overrides an earlier one. |
| Settings.SectionsStay | src/pages/Settings.tsx:27-65 | The four sections the page opens with are never lost. |

## Left out

- The runner's mock output generator is not modelled: its random numbers and addresses, its random delay and its feature regexes (supabase/functions/execute-c/index.ts:11-24 and 54-86). The program's text is the parameter `programOutput`; the elapsed time is `elapsed`.
- The runner's `catch` branch, which reports a runtime error, is left out (supabase/functions/execute-c/index.ts:96-102). Nothing in the modelled pre-checks can throw.
- HTTP plumbing is abstract: `Deno.serve`, CORS headers, `Response` construction and JSON encoding.
  - A request is a method and a parsed body; a response is a status and a body.
  - A body that does not parse, or the JSON value `null`, makes `const { code } = await req.json()` throw. Both are modelled as `Malformed` and get 500.
  - Any other JSON value without a `code` property, such as a number, a string, a boolean or an array, destructures to `code === undefined`. It is modelled as `Json(None)` and gets the 400 "Missing or invalid code parameter".
  - The middleware's own 500 branch has nothing that could throw in the model.
- `supabase/functions/middleware/rateLimiter.ts` is a wrapper over an external store and is not part of this model.
- The `compileAndRun` backend of the `execute` function is not part of this model. Its outcome, a thrown error or a returned result, is the input.
- ExecuteC.Handle: the length cap counts Dafny characters, while `code.length` counts UTF-16 code units. Code of 5,001 characters outside the Basic Multilingual Plane is 10,002 units, refused by the source and admitted by the model. The same holds for ExecuteC.LengthCapIsInclusive.
- StackGuard.Enter: the C++ counter is `int`; the model's is unbounded. Wrap-around would need about 2^31 leaked frames.
- StackGuard.NestedPastLimit: assumes that the destructors of the enclosing guards run while the exception propagates. StackGuard.ThousandDeep and StackGuard.LeakAccumulates rest on the same assumption.
  - In the Emscripten copy, the JavaScript `Error` thrown from `EM_ASM` (public/wasm/cpp/stack_guard.cpp:10) crosses the WebAssembly frames without C++ cleanup. The flags on line 2 of src/lib/wasmCompiler.js enable neither `-fexceptions` nor `-fwasm-exceptions`. There the counter stays 1001 above its start, not 1.
  - In the `std::runtime_error` copy nothing catches the exception, so `std::terminate` is called. Whether the stack unwinds first is implementation-defined.
- The compiler flags on line 2 of src/lib/wasmCompiler.js are left out, as are the `runCode` timeout and `_emergency_halt` race in src/lib/wasmExecutor.js. Both are concurrency and timers.
- MemoryGuard.NewGuard: takes `limitMB` as an integer. JavaScript also accepts fractions, so `new MemoryGuard(instance, 0.5)` gives a limit of 524,288 bytes.
- MemoryGuard.AccessGuard: a WebAssembly `i32` reaches JavaScript as a signed number. The model takes `ptr` and `size` as the unbounded integers JavaScript adds.
- Browser storage is not modelled. That covers the progress list, challenge completion flags, the streak and the completion flag of today's challenge. The updates are pure functions on the values read, and the streak is a parameter.
- Progress.GetCompletionPercentage: requires `totalLessons > 0`. The source divides by it, and for 0 JavaScript gives `NaN` or `Infinity`, not a number the model can represent.
- Floating point: `Math.round` and `Math.floor` act on non-negative integer ratios and are modelled with integer division.
- Progress.RoundedPercent: rounds the exact ratio. The source rounds an IEEE double, which differs when the ratio is not exact in binary and falls on a half. For 29 of 200, `(29 / 200) * 100` is 14.499999999999998, so the source gives 14 and the model 15. For totals up to 24, the shipped course's size, no count up to the total meets such a case.
- Text.ToLower: lowercases ASCII letters only. JavaScript's `toLowerCase` also maps other Unicode letters. String lengths count Dafny characters, not UTF-16 code units.
- `setInterval` timers are left out of both challenge pages; the model has the per-tick transition. So are alerts and navigation, except the start button's destination.
- Challenge.AfterRun: the page's demo mode, taken when no backend URL is configured, is left out (src/pages/Challenge.tsx:120-163). It fabricates output from substrings of the code.
- Challenge.AfterRun: a response body that fails to parse, or a thrown value that is not an `Error`, is left out. The failed-request message is the response's `error` or "Execution failed".
- Progress.StartCourse: takes one `now` for both `startedAt` and `lastAccessedAt`. src/hooks/useProgress.ts:70-71 calls `new Date()` twice, so the two stamps can differ by a millisecond. Progress.CompleteLesson and Progress.RecordCompletion do the same with `completedAt` and `lastAccessedAt`, which src/hooks/useProgress.ts:102 and 112 read separately.
- The `timeSpent` and `attempts` fields are plain integers, as in the source; nothing keeps them non-negative.
- Question and answer texts of the FAQ, the settings' initial field values and the mock challenge texts are data. Only the parts the proved properties need are modelled: section names, challenge ids, lesson ids, titles and times.
- External collaborators are not part of this model: src/lib/errorLogger.js (a database insert), src/lib/supabase.ts (client configuration), src/features/codeExecution/useCodeRunner.js (fetch and abort), src/features/preview/PreviewPane.jsx (console output only) and public/wasm/cpp/emscripten_setup.cpp (a time-seeded random generator).
- tests/wasmSecurity.test.js is not encoded. It calls helpers that are not defined, and it expects more than 5 refusals out of 15 calls, while the limiter refuses exactly 5 (`RateLimiter.FifteenAtOnce`).
- Presentation-only pages and components are left out: static arrays and markup with no state transitions.

## Findings

| source | as written | input that shows it | evidently intended | confidence | as-written member | corrected member |
|---|---|---|---|---|---|---|
| public/wasm/cpp/stack_guard.cpp:8-13 (and src/lib/wasmCompiler.js:8-14) | The constructor increments the depth and then throws when the limit is passed. A throwing constructor's destructor never runs, so the increment stays. | From depth 0, 1001 nested guarded calls throw and, assuming the enclosing guards' destructors run as the exception propagates, leave the depth at 1. Afterwards only 999 nested calls fit. | A refused entry leaves the depth unchanged, so the limit stays 1000 after an overflow. | not executed; high | StackGuard.NestedPastLimit | StackGuard.NestedCorrectedRestores |
| src/pages/FAQ.tsx:179-185 | Open items are numbered by position on the filtered page, so the open state stays with a position when the search changes. | Open the first of the questions `a` and `b`, then search `b`: `b` is shown at position 0 and shows open. | The open state belongs to a question, wherever the search places it. | not executed; medium | Faq.OpenStateFollowsPosition | Faq.CorrectedOpenFollowsQuestion |
