# Rubayed Method drill trainer — verified model

A Dafny model of the core of a mental-arithmetic drill app for abacus-style
practice. It covers three parts:

- **The problem generator** (`math_utils.dfy`, module `MathUtils`). It turns a
  practice configuration into one add/less, multiply or divide problem.
  - A digit spec such as `"3"` or `"3-2"` resolves to a digit count.
  - A digit count *d* gives a number in [10^(d-1), 10^d − 1].
  - Add/less rows may be subtracted, with a 40 % chance, after the first row.
  - A division is made exact by rounding the candidate dividend down to a
    multiple of the divisor. When that gives 0, the dividend becomes
    divisor × k for some k in 1..9.
- **The practice session** (`practice_screen.dfy`, class
  `PracticeScreen.Session`). It covers keypad input capped at eight
  characters, delete, "Next" (score, record, then finish or load the next
  problem), the one-second tick of a timed session, and the `mm:ss` clock.
- **The app shell** (`app.dfy`, module `App`). It covers the default
  configuration, saving and deleting presets, and the accuracy percentage and
  feedback tip shown at the end.

Supporting modules:

- `types.dfy` holds the records and enumerations of `types.ts`.
- `text.dfy` models the JavaScript primitives the code relies on:
  `toString`, `Number(...)`, `parseFloat`, `split`, `join` and `padStart`.
- `arith.dfy` holds multiplication and division facts used by the proofs.
- `wrappers.dfy` holds `Option`.

Randomness is an explicit input. A value of `Math.random()` is a fraction
`num / den` with `num < den`. In exact arithmetic `Math.floor(Math.random() * n)`
is then `num * n / den`, and the test `Math.random() > 0.6` is `5 * num > 3 * den`.
Each add/less row takes its own `RowDraw`: the digit-spec pick, the number and
the sign. Multiply and divide take the draws `first`, `second` and `third` in
the order the source draws them. Problem ids and preset ids are parameters.

## Model

| member | source | states |
|---|---|---|
| MathUtils.RandomInt | services/mathUtils.ts:3 | the drawn integer lies in the closed range [min, max] |
| MathUtils.RandomIntCovers | services/mathUtils.ts:3 | every integer of [min, max] is drawn by some value of Math.random() |
| MathUtils.NumberWithDigits | services/mathUtils.ts:5-9 | for d ≥ 1 the number lies in [10^(d-1), 10^d − 1] and is rendered with exactly d decimal digits |
| Text.ToNumber | services/mathUtils.ts:18 | Number(s) gives a value exactly when s is a string of decimal digits, NaN otherwise |
| Text.Split | services/mathUtils.ts:14 | `split` gives at least one part, no part contains the separator, a separator in the string gives at least two parts, and a string without it is its only part |
| Text.JoinSplit | services/mathUtils.ts:14 | the parts of `split('-')` joined with '-' give back the digit spec |
| Text.Join | services/mathUtils.ts:49 | splitting the result of `join` gives back every non-empty list of separator-free parts |
| Text.IntToString | services/mathUtils.ts:49 | `toString` of an integer is non-empty, starts with '-' exactly for a negative value, and its digits read back as the magnitude |
| MathUtils.DigitsFromConfig | services/mathUtils.ts:12-19 | with no '-' the spec is read as one number; with '-' the result is the number of one of the dash-separated parts; a spec of positive counts yields a count ≥ 1 |
| MathUtils.DigitsFromConfigCovers | services/mathUtils.ts:14-16 | every dash-separated part is picked by some draw |
| MathUtils.ThreeOrTwoDigits | services/mathUtils.ts:11-19 | an example instance of the above: the spec "3-2" resolves to 3 or to 2 |
| MathUtils.IsSubtraction | services/mathUtils.ts:40 | the draw counts as a subtraction exactly when, read as a real number, it exceeds 0.6 |
| MathUtils.RowValue | services/mathUtils.ts:32-44 | a row's magnitude is a d-digit number for the d its digit spec resolved to; the first row and every row of an Addition drill are positive; a row is negative exactly when it is a later row of an Add Less drill and the draw exceeds 0.6 |
| MathUtils.AddLessProblem | services/mathUtils.ts:28-49 | the loop pushes exactly `rows` numbers, each the row value of its own draw; the answer is the running total, equal to their sum; the display is the numbers joined by '\n' |
| MathUtils.AddLessTotalMayBeNegative | services/mathUtils.ts:37-47 | nothing keeps an Add Less total non-negative: three one-digit rows drawing 9 with a sign draw above 0.6 are 9, −9, −9, with total −9 |
| MathUtils.OneDigitSpec | services/mathUtils.ts:12-19 | the spec "1" is valid and always resolves to one digit |
| MathUtils.SumOfPositives | services/mathUtils.ts:45-48 | a sum of positive rows is at least the number of rows |
| MathUtils.GenerateProblem | services/mathUtils.ts:21-86 | add/less: exactly `rows` numbers, each the row value of its draw, answer their sum, display the numbers joined by '\n', all positive with answer ≥ rows for Addition; multiply and divide: the problems below; id is the given id |
| MathUtils.MultiplyProblem | services/mathUtils.ts:51-56 | numbers = [a, b] with a in the multiplicand-digit range and b in the multiplicator-digit range, answer = a × b, display "a ร\u0097 b": the Thai letter ro rua U+0E23 followed by the control character U+0097, between spaces |
| MathUtils.CandidateDividend | services/mathUtils.ts:68-73 | the candidate dividend has exactly dividendDigits digits |
| MathUtils.CleanDividend | services/mathUtils.ts:75 | the cleaned dividend is a multiple of the divisor, at most the candidate and more than candidate − divisor |
| MathUtils.FinalDividend | services/mathUtils.ts:77-78 | the final dividend is positive and divisible by the divisor; it is the cleaned dividend unless that is 0, in which case its quotient by the divisor is in 1..9 |
| MathUtils.DivideProblem | services/mathUtils.ts:58-82 | the divisor has divisorDigits digits; the dividend is positive and divisible by it; answer × divisor = dividend; outside the fallback the dividend is below 10^dividendDigits and within one divisor below the candidate; in the fallback the answer is in 1..9 |
| MathUtils.DividendMayLoseDigit | services/mathUtils.ts:71-78 | the dividend can fall below the requested digit count: two dividend digits, divisor 7 and candidate 10 give dividend 7 |
| Text.ParseFloat | components/PracticeScreen.tsx:135 | parseFloat is NaN exactly when the input starts with neither a digit nor '.' followed by a digit |
| PracticeScreen.IsCorrect | components/PracticeScreen.tsx:135-136 | an input is correct exactly when parseFloat gives a number whose real difference from the answer lies strictly between −0.01 and 0.01 |
| PracticeScreen.EmptyInputIsIncorrect | components/PracticeScreen.tsx:135-136 | an empty answer box is scored incorrect |
| PracticeScreen.DigitInputCorrectIff | components/PracticeScreen.tsx:135-136 | a non-empty all-digit input is correct exactly when its value equals the answer |
| PracticeScreen.TypedAnswerIsCorrect | components/PracticeScreen.tsx:135-136 | typing the decimal digits of a non-negative answer is scored correct |
| PracticeScreen.NegativeAnswerNeverCorrect | components/PracticeScreen.tsx:135-136 | no keypad input (digits and '.' only, as the keypad's keys) is scored correct against a negative answer |
| PracticeScreen.FormatTime | components/PracticeScreen.tsx:150-154 | the clock text has at least five characters |
| Text.PadStart | components/PracticeScreen.tsx:151-152 | the result has length max(|s|, width), ends with s, and is filled in front with the fill character |
| PracticeScreen.FormatTimeFields | components/PracticeScreen.tsx:150-154 | the clock is the minutes field, exactly as wide as padStart makes it (the minutes' digit count, at least two), then ':', then a field of exactly two digits; they read back as seconds div 60 and seconds mod 60 |
| PracticeScreen.CorrectIn | components/PracticeScreen.tsx:138-139 | the number of correct entries never exceeds the number of entries |
| PracticeScreen.OralReportAsWritten | components/PracticeScreen.tsx:70-73 | as written, the oral report is one answer short of the recorded totals: total one less, history without the last entry, correct count without it |
| PracticeScreen.OralReportAsWrittenOmitsLastAnswer | components/PracticeScreen.tsx:70-73 | as written, an oral drill of five sums ends when four answers are recorded; the report holds those four, where five answers, the last one included, were given |
| PracticeScreen.TimedReportAsWritten | components/PracticeScreen.tsx:44-57 | as written, the timer's report is 0 correct of 0 with an empty history, and differs from any session that answered something |
| PracticeScreen.TimedReportAsWrittenIsEmpty | components/PracticeScreen.tsx:44-57 | as written, a timed session that answered three problems correctly reports a total of 0 |
| PracticeScreen.Session.constructor | components/PracticeScreen.tsx:14-22 | a session starts with no problem, empty input, clock and counters at 0, empty history, not finished |
| PracticeScreen.Session.LoadNextProblem | components/PracticeScreen.tsx:33-41 | the given problem becomes current and the answer box is emptied |
| PracticeScreen.Session.HandleInput | components/PracticeScreen.tsx:122-124 | the key, a digit or '.' as on the keypad (components/Keypad.tsx:11), is appended while the input is shorter than 8; at 8 the input is unchanged, so it never exceeds 8 and holds keypad characters only |
| PracticeScreen.Session.HandleDelete | components/PracticeScreen.tsx:126-128 | exactly the last character is removed; empty input stays empty |
| PracticeScreen.Session.FinishSession | components/PracticeScreen.tsx:70-73 | the report handed over is the session's current correct count, total and history |
| PracticeScreen.Session.RecordAnswer | components/PracticeScreen.tsx:138-140 | the tally becomes the old tally with the entry recorded: one more history entry, one more answer, one more correct exactly when the entry is correct |
| PracticeScreen.Session.HandleNext | components/PracticeScreen.tsx:130-148 | with no problem nothing changes; otherwise one history entry is added (the problem, the parsed input, the verdict), count grows by 1 and correctCount by 1 exactly when the verdict is correct; it finishes exactly in oral mode when count + 1 ≥ numberOfSums, reporting the updated totals with problem and input unchanged, and otherwise loads the next problem with empty input; correctCount ≤ count = history length is kept |
| PracticeScreen.Session.Tick | components/PracticeScreen.tsx:48-56 | below timeLimit × 60 the clock advances by 1; at the limit the session finishes with the clock unchanged, so it never passes the limit |
| App.DefaultConfig | App.tsx:8-21 | the default is a valid timed, addition-only add/less configuration |
| App.WithoutId | App.tsx:54-55 | a preset is kept exactly when it was in the list and its id differs |
| App.WithoutIdConcat | App.tsx:55 | filtering distributes over concatenation, so the kept presets keep their relative order |
| App.WithoutIdMultiplicity | App.tsx:55 | each preset is kept as many times as it occurred, or not at all if it has the deleted id |
| App.WithoutAbsentId | App.tsx:55 | deleting an id that no preset carries leaves the list unchanged |
| App.WithoutIdIdempotent | App.tsx:55 | deleting the same id twice equals deleting it once |
| App.DeleteUndoesSave | App.tsx:43-58 | deleting a just-saved preset by its fresh id restores the list from before the save |
| App.Accuracy | App.tsx:69 | the percentage is at most 100, 0 when nothing was answered, and otherwise the integer nearest to 100·correct/total, rounding halves up |
| App.AllCorrectIsHundred | App.tsx:69 | a session answered entirely correctly scores 100 |
| App.FallbackTip | App.tsx:78 | the tip is "Excellent work!" exactly when accuracy > 80, and "Keep practicing!" exactly otherwise |
| App.Tip | App.tsx:73-79 | with an advice service the tip is its reply; without one it is the fallback tip |
| App.AppState.constructor | App.tsx:24-30 | the app starts on the settings view with the default configuration, no results, no tip and no presets |
| App.AppState.SetConfig | App.tsx:25 | the configuration becomes the given one |
| App.AppState.LoadPreset | components/ConfigScreen.tsx:81 | the configuration becomes the preset's snapshot |
| App.AppState.SavePreset | App.tsx:43-52 | the list grows by exactly one preset at the end, with the given id, the given name and a copy of the current configuration; earlier presets are unchanged and keep their order |
| App.AppState.DeletePreset | App.tsx:54-58 | the list becomes the filtered list, and no preset with that id remains |
| App.AppState.HandleFinish | App.tsx:64-80 | the results are shown, and the tip is the tip for their accuracy |
| App.SaveThenLoad | App.tsx:43-50 | saving, changing the configuration, then loading the new preset restores the saved configuration field for field |

## Left out

- Persistence of presets to `localStorage` and the JSON round trip (App.tsx:32-41, 51, 57). This is platform I/O.
- `services/geminiService.ts` is not part of this model; it makes network calls. The advice reply is an `Option<string>` input to `HandleFinish`. The "Asking AI Coach..." placeholder shown while the request runs is not modelled.
- The time descriptor that `handleFinish` passes to the advice service (App.tsx:70). It only feeds the external call.
- Oral narration (`playOralSequence`, components/PracticeScreen.tsx:75-120): audio, speech synthesis and `setTimeout` chains.
- React machinery and rendering:
  - installing and clearing the interval, and the audio ref;
  - `handleStart` and `handleExit` view switches;
  - the settings screen's `handleChange`; `SetConfig` stands for the setter it calls.
- The settings screen's name guard (components/ConfigScreen.tsx:30-35). `SavePreset` accepts any name, as `handleSavePreset` does.
- Id generation (services/mathUtils.ts:22, App.tsx:45). It is random or clock-based, so ids are parameters.
- JavaScript numbers are doubles; the model uses unbounded integers. Every value the generator produces is far below 2^53.
- `Number(...)` is modelled only on digit strings, where the empty string is 0. Whitespace, signs, decimal points, exponents and hex give None (NaN) here. The settings screen only offers digit strings.
- MathUtils.Scale: computes `Math.floor(Math.random() * n)` in exact arithmetic. In double arithmetic the product is rounded before the floor, so a draw within one rounding step below an integer boundary can land on the next integer of the same range (6004799503160661 / 2^53 times 3 rounds to 2.0). The range and coverage properties above are proved for the exact result.
- Draws: the `Random` type admits every rational in [0, 1), a superset of the doubles `Math.random()` returns.
- `parseFloat` is modelled on digits and '.', the keypad's alphabet. Leading whitespace, signs, exponents and "Infinity" are not modelled.
- PracticeScreen.IsCorrect: compares in exact decimal arithmetic. Binary floating-point rounding can flip the `< 0.01` test when the difference is exactly 0.01; that case is not modelled.
- App.Accuracy: rounds the exact ratio. Floating-point `(correct / total) * 100` can fall just below a .5 boundary (29/200 gives 14 in the source, 15 here); that case is not modelled.
- PracticeScreen.Session.HandleInput: takes one character, as the keypad always sends one-character strings.
- The session's handlers require that the session has not finished. `finishSession` clears the interval, and `onFinish` switches the app away from the practice screen. `Tick` requires timed mode because only a timed session installs the interval.
- The session reports its totals as they are after the answer just recorded (see Findings). The source's reported totals lag behind; `OralReportAsWritten` and `TimedReportAsWritten` model what it hands over.

## Findings

| source | as written | input that shows it | evidently intended | confidence | as-written member | corrected member |
|---|---|---|---|---|---|---|
| components/PracticeScreen.tsx:70-73 | In oral mode `handleNext` calls `finishSession`, which reads `correctCount`, `count` and `history` from the render that handled the click. Those are the values from before the updates at lines 138-140. | numberOfSums = 5 (the smallest the settings offer), five answers: `onFinish` receives a total of 4 and a history of four entries | total 5, history holding all five answers | high; not executed | PracticeScreen.OralReportAsWrittenOmitsLastAnswer | PracticeScreen.Session.HandleNext |
| components/PracticeScreen.tsx:44-57 | The interval is installed once at mount and calls the `finishSession` of the first render, whose counters are all 0. | timed session, three problems answered, clock reaches the limit: `onFinish` receives correct 0, total 0, empty history | the session's current totals and history | high; not executed | PracticeScreen.TimedReportAsWrittenIsEmpty | PracticeScreen.Session.Tick |
