# Multiplication quiz engine in Dafny

This project models the quiz engine of the SwiftUI app "Multiplication" (`QuestionScreen`).
The user picks how many times tables to practise (`tablesUpTo`) and how many questions to answer (`numberOfQuestions`).
The screen then builds one `Question` for every table/multiplier pair, shuffles the pool and draws a question.
Each time the user submits an answer, it grades the answer, moves the score up or down by one, draws the next question and advances the progress index.
It raises the "Game over!" alert when the index reaches the question count.

The model is functional:

- `IntParse`: Swift's `Int(_: String)` as a total function to `Option<int>`, with a decimal rendering as its inverse.
  Non-canonical spellings such as "+7", "007" and "-0" are accepted and reduce to the canonical one.
- `Shuffling`: `shuffle()` with its random numbers passed in as `draws`.
- `Questions`: the `Question` value and the pool that `createQuestions` builds.
- `Sessions`: the session record (`pool`, `current`, `score`, `index`, `answer`, `gameOver`) and the transitions.
  - `Draw` models `removeFirst`.
  - `Pick` models `pickQuestion`.
  - `Start` models the initial state plus `onAppear`.
  - `Submit` models `didSubmit`.
- `Play`: whole sessions, as sequences of attempts (type text, tap Submit).
  `Step` is one attempt, `Run` applies a sequence of them, and `FromStart` runs them from `Start`.
  A run stops at the first game-over state, because the alert is modal and its only button closes the screen.

Randomness is a set of parameters:

- The title's coin flips are a function `order(i, j)`.
- Each shuffle takes a sequence of draws. Each draw picks the next element, modulo the number still unplaced.
  Over all draws, `Shuffle` produces exactly the permutations of its input (`ShufflePermutes`, `ShuffleReachesEvery`).

`removeFirst` on an empty pool is a runtime trap in Swift.
`Draw` therefore requires a non-empty pool, and `Pick`/`Submit` return `Trapped` when the pool is empty.

Two behaviours are kept as the code has them:

- **Game over comes one submission early.** The index starts at 1 and is compared with `numberOfQuestions` after it is incremented.
  So game over is raised after `numberOfQuestions - 1` valid submissions (`GameOverAfterOneFewer`).
  Attempts whose text is not an integer do not count: `didSubmit` returns before touching the session.
  A perfect session therefore scores at most `numberOfQuestions - 1` (`NeverTrapsWhenPoolSuffices`).
  With `numberOfQuestions = 1` game over is never raised, because the index is already 2 at the first comparison; such a session runs until the pool traps. The menu only offers 5, 10 and 20.
- **The pool can run dry.** With one table (12 questions) and 20 questions, the twelfth valid submission traps in `removeFirst` (`OneTableTwentyQuestionsTraps`).
  Every other configuration the main screen offers is safe (`MenuConfigurationsNeverTrap`).

The range `1...tablesUpTo` traps for `tablesUpTo < 1`, so `Start` requires `tablesUpTo >= 1`; values above 12 are accepted as written.

## Model

| member | source | states |
|---|---|---|
| `IntParse.ParseInt` | Multiplication/QuestionScreen.swift:83 | `Int(text)` yields an integer exactly when the text is one or more ASCII digits, optionally after a single '+' or '-'. The empty string, a lone sign, spaces and letters are rejected. The sign of the value follows a leading '-'. |
| `IntParse.StripZeros` | Multiplication/QuestionScreen.swift:83 | Dropping leading zeros from a run of digits keeps at least one digit and does not change its value. |
| `IntParse.NormalizeKeepsValue` | Multiplication/QuestionScreen.swift:83 | Every accepted text is read as its canonical spelling: no '+', no leading zeros, no "-0". That spelling is the decimal rendering of the value, so every accepted text reduces to the canonical case. |
| `IntParse.SignPrefix` | Multiplication/QuestionScreen.swift:83 | A leading '+' leaves the value of a digit run unchanged; a leading '-' negates it. |
| `IntParse.OtherSpellings` | Multiplication/QuestionScreen.swift:83 | Concretely, "+7" and "007" are read as 7, "-0" as 0, and " 7" is rejected. |
| `IntParse.ParseRender` | Multiplication/QuestionScreen.swift:83 | Every integer written in decimal is read back by `Int(text)` as that same integer, and its rendering is canonical. So every answer can be typed. |
| `IntParse.RenderParse` | Multiplication/QuestionScreen.swift:83 | The inverse direction: canonical decimal text parses to a value whose rendering is the original text. |
| `Shuffling.Shuffle` | Multiplication/QuestionScreen.swift:78 | The shuffled pool holds the same questions with the same multiplicities as before. |
| `Shuffling.ShufflePermutes` | Multiplication/QuestionScreen.swift:78 | The shuffle keeps the length and the set of members of the pool. |
| `Shuffling.ShuffleReachesEvery` | Multiplication/QuestionScreen.swift:78 | Every permutation of the pool is the result of some draws. The draws parameter stands for any shuffle. |
| `Questions.AnswerIgnoresOrder` | Multiplication/QuestionScreen.swift:15-24 | The answer is the product of the two operands as displayed, whichever order the coin flip chose. Flipping the display order does not change the answer. |
| `Questions.Grid` | Multiplication/QuestionScreen.swift:70-74 | The nested loops give `t * 12` questions. A question occurs exactly when its table is in 1..t, its multiplier is in 1..12 and its display order is the one flipped for that pair. They come in strict table-major, multiplier-minor order. |
| `Questions.CreateQuestions` | Multiplication/QuestionScreen.swift:69-75 | `createQuestions` appends: the old pool stays as a prefix. `tablesUpTo * 12` grid questions follow in loop order, with exactly the grid's members. |
| `Questions.OrderedHasNoDuplicates` | Multiplication/QuestionScreen.swift:70-74 | A pool in strict loop order has no question twice. |
| `Questions.CreatedPoolIsTheGrid` | Multiplication/QuestionScreen.swift:35 | From the initially empty pool, `createQuestions` yields exactly `tablesUpTo * 12` pairwise distinct questions. It contains every pair `(i, j)` with `1 <= i <= tablesUpTo` and `1 <= j <= 12`. |
| `Sessions.Draw` | Multiplication/QuestionScreen.swift:79 | `removeFirst` needs a non-empty pool. The question it returns, put back in front of the rest, gives the pool again. |
| `Sessions.Pick` | Multiplication/QuestionScreen.swift:77-80 | The draw traps exactly on an empty pool. Otherwise the pool loses one question and the new current question came from the old pool. `[current] + pool'` is a permutation of the old pool. Score, index, text and game-over flag are unchanged. |
| `Sessions.Start` | Multiplication/QuestionScreen.swift:32-36 | After the initial state and `onAppear` (lines 60-64), score is 0, index is 1, text is empty and there is no game over. `tablesUpTo * 12 - 1` questions remain. The current question and the pool together are exactly the created questions. |
| `Sessions.Submit` | Multiplication/QuestionScreen.swift:82-105 | Text that is not an integer leaves every field unchanged. Otherwise: the submission traps exactly on an empty pool; the score moves by +1 for the right answer and -1 for any other, with no lower bound; the index goes up by 1; the text is cleared; game over holds exactly when the new index equals `numberOfQuestions`; the new question came from the old pool, which lost exactly that question. |
| `Sessions.CorrectAnswerScores` | Multiplication/QuestionScreen.swift:88-89 | Typing the rendered answer of the current question and submitting it adds exactly one point. |
| `Sessions.WrongAnswerCosts` | Multiplication/QuestionScreen.swift:93-94 | Typing any other integer and submitting it takes away exactly one point, whatever the score was. |
| `Play.Step` | Multiplication/QuestionScreen.swift:145-167 | One attempt types into the answer field and taps Submit, which calls `didSubmit` (line 167). Text that is not an integer only stays in the field. An integer traps exactly on an empty pool; otherwise it advances the index by one, clears the text, uses one question and raises game over exactly at the configured count. |
| `Play.Run` | Multiplication/QuestionScreen.swift:55-59 | Attempts apply one after another and stop at game over: the alert (line 104) is modal and its button closes the screen. From a game-over state nothing happens. The questions drawn are at most the number of valid attempts. The index advances by exactly the number drawn. A run that has not ended drew one question per valid attempt. |
| `Play.FromStart` | Multiplication/QuestionScreen.swift:60-64 | A session opened from the main screen: every question it draws is one of the created grid, and the index is one more than the number of questions drawn. |
| `Play.StartEstablishesInv` | Multiplication/QuestionScreen.swift:60-64 | The started session satisfies the session invariant: index within range, game over exactly at the last index, index plus pool size equal to `tablesUpTo * 12`, and the score within the number of submissions. |
| `Play.SubmitKeepsInv` | Multiplication/QuestionScreen.swift:82-105 | With `numberOfQuestions <= tablesUpTo * 12`, a submission before game over never traps and keeps the invariant. |
| `Play.RunKeepsInv` | Multiplication/QuestionScreen.swift:100-104 | The same holds for any sequence of attempts, valid or not: no trap, and the invariant holds when the run stops. |
| `Play.NeverTrapsWhenPoolSuffices` | Multiplication/QuestionScreen.swift:77-80 | From `Start` with `2 <= numberOfQuestions <= tablesUpTo * 12`, no draw before game over finds an empty pool. At game over the score is at most `numberOfQuestions - 1`. |
| `Play.MenuConfigurationsNeverTrap` | Multiplication/MainScreen.swift:11-36 | Of the menu's configurations (tables 1..12, counts 5, 10 and 20), every one except one table with 20 questions runs without a trap. |
| `Play.RunProgress` | Multiplication/QuestionScreen.swift:83-104 | Before game over, the valid attempts make `k = min(valid attempts, numberOfQuestions - index)` submissions; invalid ones change nothing. When the pool holds `k` questions: no trap, index and pool move by `k`, `k` questions are drawn, and game over holds exactly when the valid attempts reach the count. |
| `Play.RunTraps` | Multiplication/QuestionScreen.swift:79 | When those `k` submissions need more questions than the pool holds, the run ends in the `removeFirst` trap. |
| `Play.FreshGameOverAfterOneFewer` | Multiplication/QuestionScreen.swift:103-104 | From any freshly started state: game over holds exactly once at least `numberOfQuestions - 1` of the attempts are valid, and the index is `min(1 + valid attempts, numberOfQuestions)`. Invalid attempts may be mixed in anywhere. |
| `Play.GameOverAfterOneFewer` | Multiplication/QuestionScreen.swift:32 | The same from `Start`. Because the index starts at 1, game over comes after `numberOfQuestions - 1` valid submissions. |
| `Play.OneTableTwentyQuestionsTraps` | Multiplication/QuestionScreen.swift:63 | With `tablesUpTo = 1` and 20 questions, attempts with 11 valid ones empty the pool without game over. The 12th valid one traps. |
| `Play.FreshOneTableTwentyQuestions` | Multiplication/QuestionScreen.swift:100-104 | The same from any fresh one-table state. |
| `Play.DrawnFromPool` | Multiplication/QuestionScreen.swift:77-80 | Every question a run draws came out of the starting pool, each at most as often as it was there. A run that does not trap leaves exactly the undrawn rest in the pool. |
| `Play.NoQuestionRepeats` | Multiplication/QuestionScreen.swift:79 | If the current question and the pool have no repeats, then neither do the current question and every question drawn afterwards. |
| `Play.StartHasNoDuplicates` | Multiplication/QuestionScreen.swift:69-75 | After `Start`, the current question and the remaining pool have no question twice. |
| `Play.SessionNeverRepeats` | Multiplication/QuestionScreen.swift:100-102 | Within a session, a question once shown is never asked again. |
| `Play.AskedPairsDistinct` | Multiplication/QuestionScreen.swift:70-80 | No two questions of a session pair the same table with the same multiplier, whichever order their operands are shown in. |
| `Play.TwelveTablesTwentyQuestions` | Multiplication/QuestionScreen.swift:100-104 | With 12 tables and 20 questions, the 19th valid answer ends the game without a trap, whatever invalid attempts come between. The 20 questions shown are pairwise distinct. |
| `Play.FreshTwelveTablesTwentyQuestions` | Multiplication/QuestionScreen.swift:103-104 | The same from any fresh twelve-table state without repeats. |

## Left out

- SwiftUI presentation is not modelled: `body`, the answer, info and thumbs views, the submit button, the alert's rendering, focus state and previews. Only the alert's effect is kept: a run stops at game over.
- The animation flags `newQuestionPicked`, `animatingIncreaseScore` and `animatingDecreaseScore` are cosmetic and are not modelled.
- The `questionTitle` string is not built. Only the display order of the operands is modelled (`Question.Shown`); the coin flip is the `order` parameter.
- `shuffle()` is modelled by the set of permutations it can produce, not by its probability distribution or its exact algorithm.
- `Int(_: String)` range overflow is not modelled, and neither is 64-bit overflow of `score` or `askingQuestionIndex`. Integers are unbounded.
- A second `onAppear` on the same screen is not modelled. `CreateQuestions` appends to an existing pool as the code does, but `Start` always begins from the initial state.
- `Multiplication/MainScreen.swift` is navigation and form UI. Only its configuration ranges are used: `tablesUpTo` in 1...12 and a question count of 5, 10 or 20.
- Submissions after game over are not modelled, because the modal alert prevents them.
