# Friendship quiz: session state machine

A Dafny model of the single `App` component of a one-page trivia quiz. The
component walks a player through a fixed list of multiple-choice questions,
keeps a running score and the list of answers, shows a result screen and
hands the final score to a background save. The result screen can ask a
text generator for a narrative summary. A separate admin view is gated by a
static passphrase. It lists the stored results and lets the operator delete
them.

Files:

- `optional.dfy`: `Option`, the model of `T | null`.
- `quiz.dfy` (module `QuizSession`): the `QuizState` record and the updater
  functions the handlers pass to `setState`. It also holds the invariant
  `Inv`, the user intents (`Event`) with the screens that offer them
  (`Enabled`), and `Run`, which replays any sequence of intents.
- `records.dfy` (module `Records`): the stored record, the save payload and
  the dashboard's `filter` after a delete.
- `analysis.dfy` (module `Analysis`): the `result || fallback` choice of
  the analysis text.
- `app.dfy` (module `App`): class `QuizApp`, holding the component's state
  cells (`state`, `aiAnalysis`, `isAnalyzing`, `adminPassInput`,
  `loginError`, `records`, `isSaving`). Each method's field-level `modifies`
  frame names exactly the cells its part of a handler writes. Most handlers
  are one method; three are split where they wait on another party:
  `HandleAdminLogin` stops before the awaited `refreshRecords()` call, which
  `RefreshRecords` models; `triggerAIAnalysis` is split at its `await` into
  `BeginAnalysis` (`isAnalyzing`, the step) and `FinishAnalysis`
  (`aiAnalysis`, `isAnalyzing`); `handleNext`'s `.finally` is
  `SaveSettled`.

The question list is a constructor parameter. Only each question's id and
correct option index are modelled. What the record store and the text
generator return arrives as method parameters: the fetched list (absent
when the list call threw), the delete's success flag and the generator's
optional text. `getRank(score).title`
and the locale timestamp are parameters of `HandleNext`.

`Inv` states what holds on every screen reachable through the offered
controls:

- the index is in range;
- the answer count equals `currentIndex + (showExplanation ? 1 : 0)`,
  the numerator of the progress bar;
- the k-th answer belongs to the k-th question;
- `score` is the number of correct answers;
- `selectedOption` is set exactly while the explanation shows, and the
  colour of the explanation box agrees with the recorded answer;
- the intro and admin screens carry the quiz fields of a fresh session;
- the result and analysis screens come after the last question was answered.

`handleStart` only sets the step; it does not reset index, score or
answers. `StartIsFresh` proves this harmless: on every reachable intro
screen those fields already hold their initial values, because every way
back to intro goes through `handleReset`. `BackToInitial` proves that,
once a pending analysis has settled (`FinishAnalysis`), no screen is a dead
end: from every reachable state the offered controls lead back to the
initial state. While the analysis request is pending the analysis screen
renders no reset button, so the session waits on the generator.

## Model

| member | source | states |
|---|---|---|
| `QuizSession.CorrectCount` | App.tsx:65-71 | the number of correct answers never exceeds the number of answers |
| `QuizSession.CorrectCountAppend` | App.tsx:65-71 | appending one answer raises the correct count by one exactly when that answer is correct |
| `QuizSession.GoTo` | App.tsx:43-45 | the start, admin-entry, login and analysis updaters change the step and no other field |
| `QuizSession.SelectOption` | App.tsx:62-73 | with the explanation showing, a click changes nothing; otherwise it appends exactly one `(currentQuestion.id, isCorrect)` entry and keeps the earlier ones; the score rises by one iff the choice is correct and is unchanged otherwise; it sets the selection and the explanation flag; step and index stay |
| `QuizSession.Next` | App.tsx:75-92 | before the last question: the index rises by exactly one, the selection and explanation clear, and score, answers and step stay; at the last: the step becomes `result` and nothing else changes |
| `QuizSession.Login` | App.tsx:116-124 | exactly the input `"2025"` moves to the dashboard; any other input leaves the quiz state unchanged; only the step can change |
| `QuizSession.EnabledCoversControls` | App.tsx:137-140 | `Enabled` allows at least every control the screens render: start and admin entry on intro (App.tsx:137-140, 174-176), option clicks and, once answered, next on the quiz screen (App.tsx:303, 323-336), login on the login screen (App.tsx:196, 205), analysis and reset on the result screen (App.tsx:367, 373), reset on the login, dashboard and analysis screens (App.tsx:204, 222, 417-419); it allows more than the screens offer in two places: reset on the analysis screen while `isAnalyzing` (App.tsx:417) and option clicks while the buttons are disabled (App.tsx:313), which the handler ignores |
| `QuizSession.Apply` | App.tsx:43-124 | the handler each control calls and the screen it leads to: start to quiz, admin entry to login, analysis request to analysis, a click stays, next stays or goes to result, login stays or goes to the dashboard, reset gives exactly the initial state |
| `QuizSession.BackToInitial` | App.tsx:102-114 | once a pending analysis has settled, from every reachable state some sequence of offered intents leads back to exactly the initial state |
| `QuizSession.InitialInv` | App.tsx:11-18 | the initial state satisfies the session invariant |
| `QuizSession.SelectOptionPreservesInv` | App.tsx:62-73 | answering on the quiz screen keeps the invariant, including the score being the count of correct answers |
| `QuizSession.StepPreservesInv` | App.tsx:43-124 | every intent that the current screen offers keeps the invariant |
| `QuizSession.Run` | App.tsx:11-18 | every sequence of offered intents from an invariant state ends in a state that satisfies the invariant |
| `QuizSession.ReachableBounds` | App.tsx:154 | on every reachable state the index is in range, the answer count is the progress numerator, and the score is at most the answer count, which is at most the question count |
| `QuizSession.FinishedPassComplete` | App.tsx:83-90 | a pass that reached the result screen answered every question once, in quiz order, and its score counts the correct ones |
| `QuizSession.StartIsFresh` | App.tsx:43-45 | starting from a reachable intro screen yields a fresh pass, although `handleStart` only sets the step |
| `QuizSession.RunMonotone` | App.tsx:62-92 | without a reset, index and score never decrease and answers are only appended |
| `Records.Without` | App.tsx:126-131 | the filtered list holds every occurrence of each record whose id differs from the deleted id, and no record carrying that id |
| `Records.WithoutKeepsOrder` | App.tsx:129 | the filtered list keeps the original order |
| `Records.WithoutAbsent` | App.tsx:129 | deleting an id no record carries leaves the list unchanged |
| `Records.WithoutIdempotent` | App.tsx:129 | filtering the same id twice equals filtering it once |
| `Analysis.AnalysisText` | App.tsx:98 | a non-empty generator answer is shown as is; a missing or empty answer shows the fixed fallback message; the text is never empty |
| `App.QuizApp.constructor` | App.tsx:11-26 | all state cells start at their initial values and the invariant holds |
| `App.QuizApp.HandleStart` | App.tsx:43-45 | only the step changes, to `quiz`, and the result is a fresh pass |
| `App.QuizApp.OpenAdminLogin` | App.tsx:137-145 | only the step changes, to `admin-login` |
| `App.QuizApp.HandleOptionClick` | App.tsx:62-73 | the quiz state becomes `SelectOption` of the old one; the invariant holds |
| `App.QuizApp.HandleNext` | App.tsx:75-92 | the quiz state becomes `Next` of the old one; at the last question `isSaving` is set and the payload carries the old score and the question count; that score counts the correct answers over all questions |
| `App.QuizApp.SaveSettled` | App.tsx:90 | the saving flag clears once the save settles |
| `App.QuizApp.BeginAnalysis` | App.tsx:94-97 | sets `isAnalyzing`, moves to `ai-analysis` and requests with the final score and the question count |
| `App.QuizApp.FinishAnalysis` | App.tsx:97-99 | stores the answer or the fallback text and clears `isAnalyzing` |
| `App.QuizApp.HandleReset` | App.tsx:102-114 | offered only on the login, dashboard and result screens and on the analysis screen when no analysis is pending (App.tsx:204, 222, 373, 417); restores exactly the initial quiz state and clears the analysis, the passphrase input and the login error |
| `App.QuizApp.EditPassInput` | App.tsx:192-195 | stores the input and clears the login error |
| `App.QuizApp.HandleAdminLogin` | App.tsx:116-124 | up to the awaited refresh: access is granted iff the input is exactly `"2025"`; granted: dashboard and no error; refused: quiz state unchanged and error set |
| `App.QuizApp.RefreshRecords` | App.tsx:29-39 | the dashboard list becomes the fetched list; when the list call threw it stays as it was |
| `App.QuizApp.DeleteRecord` | App.tsx:126-131 | a confirmed delete filters out the id in order; a failed delete leaves the list unchanged |

## Left out

- Rendering, styling and animation (App.tsx:133-437). The model keeps only which screen offers which control: `Enabled` and the `requires` of the class methods.
- The record store (`services/firebaseService.ts`): remote create, list and delete, the server timestamp and the local-storage fallback. Its outcomes enter as parameters. `saveToCloud` is modelled up to the payload it submits.
- The narrative generator (`services/geminiService`), which is not part of this model. Its optional text enters `FinishAnalysis`.
- `QUESTIONS` and `getRank` (`constants.ts`), which are not part of this model. The questions are a parameter. The rank title is a function parameter of `HandleNext`.
- The locale timestamp `toLocaleString('zh-TW')` enters as a string parameter.
- The average accuracy on the dashboard (App.tsx:234-236): floating-point division and rounding.
- The progress bar's division by the question count (App.tsx:154). Only its numerator is modelled (`Answered`).
- `isLoadingRecords`, a display flag that no transition reads. The catch branch of `refreshRecords` is modelled as an absent fetched list; why the store's list call threw (its local fallback blob unreadable) is not.
- Asynchronous interleaving: the order in which pending saves, fetches and analyses settle. The two halves of `triggerAIAnalysis` are separate methods. `FinishAnalysis` writes without a guard, as the code does; no reset can come before it, because the analysis screen offers reset only once `isAnalyzing` is cleared. Nothing is said about stale results of saves and fetches.
- QuizSession.BackToInitial: uses `Enabled`'s reset on the analysis screen whatever `isAnalyzing` is, because `isAnalyzing` is not part of the quiz state; the source offers that reset only after the generator call settles (App.tsx:97-99, 417-424), and never if the call rejects or does not resolve.
- Option indices are not bounded by a question's option count, because options are not modelled.
