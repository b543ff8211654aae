# Focus timer and goal lists of the 2027 dashboard, in Dafny

This project models the two pieces of logic inside the dashboard's `App`
component. The same component exists twice, once in the single-file build
`index.tsx` and once in the modular build `App.tsx`.

- **The focus timer.** It is a state machine over eight pieces of component state:
  - the stored focus length `savedDuration`;
  - the mode (`Focus`, `ShortBreak`, or the never-reached `LongBreak`);
  - the seconds left and the running flag;
  - the length of the current phase;
  - the full-screen overlay flag;
  - the minutes editor's open flag and text.

  `TimerSpec` (TimerSpec.dfy) gives each handler as a function from the state before to the state after. These are:
  - the one-second interval callback;
  - the countdown effect that completes a phase at zero;
  - completion/skip;
  - the overlay's play/pause and close buttons;
  - the dashboard's play button and the status card's button;
  - clicking the clock, typing in the editor and leaving it.

  It also proves the following:
  - The invariant `Inv` holds from start-up under every sequence of events. It says:
    - the countdown is between 0 and the phase length;
    - the mode is never `LongBreak`;
    - the stored focus length is a whole number of minutes from 1 to 999;
    - the editor text is always 0–3 digits.
  - A running countdown loses exactly one second per callback.
  - Skipping ends in the same state as counting down and completing.
  - A focus phase followed by a break returns to a fresh focus phase.
  - Editing sets the stored length, the phase length and the countdown together.

  `Timer.FocusTimer` (Timer.dfy) is the same state as a class. Its fields are updated by methods, and each method is proved to reach the state `TimerSpec` prescribes while keeping `Inv`.

  The two builds differ in one place: on completion, `App.tsx` also rewrites the editor text to the new phase's minutes. The `resetEdit` flag selects that behaviour: `false` is `index.tsx`, `true` is `App.tsx`.
- **The goal, vision and exam lists.**
  - `Goals` (Goals.dfy) models the two halves of adding a goal: the synchronous append, and attaching the suggested tasks under ids `goalId-i` later. It also models toggling and deleting a task, and deleting a goal.
  - Each goal's `progress` is the done percentage rounded half up, computed exactly in integers as `(200·done + n) div (2·n)`, and 0 when the goal has no tasks.
  - `VisionBoard` (VisionBoard.dfy) and `Exams` (Exams.dfy) model the append and delete-by-id handlers.
  - `Seqs` (Seqs.dfy) gives `filter` and proves what the handlers rely on: it keeps exactly the accepted elements, as often as they occur, in their original order.
  - `Decimal` (Decimal.dfy) gives `toString` of whole numbers and the reachable part of `parseInt`.

Closing the overlay only hides it and does not pause the timer (`index.tsx:229`, `App.tsx:153`), so `ExitOverlay` changes nothing but the overlay flag.

The clock can be edited in a break too, and the break then takes the edited length, so `Inv` allows a break of 300 seconds or of the stored length.

## Model

| member | source | states |
|---|---|---|
| `TimerSpec.Initial` | index.tsx:114-124 | start-up: a paused focus phase with countdown = phase length = the stored length, 1500 s when nothing is stored; the editor text is the stored minutes; satisfies `Inv` |
| `TimerSpec.Tick` | index.tsx:156-158 | the countdown drops by exactly one second iff the timer is running with time left, otherwise nothing changes; it never goes negative and keeps `Inv` |
| `TimerSpec.Complete` | index.tsx:169-177 | focus becomes a 300 s break, anything else becomes focus at the current stored length; the new phase is full and paused; the stored length and overlay are unchanged; the editor text is rewritten only in the modular build; keeps `Inv` |
| `TimerSpec.Settle` | index.tsx:156-161 | the effect changes the state only when the timer is running at zero, and then it is exactly `Complete`; keeps `Inv` |
| `TimerSpec.ToggleActive` | index.tsx:229 | the overlay's play/pause button flips the running flag and nothing else |
| `TimerSpec.Play` | index.tsx:279 | the play button flips the running flag, opens the overlay exactly when the timer was stopped, and changes nothing else |
| `TimerSpec.OpenOverlay` | index.tsx:265 | the status card's button shows the overlay and changes nothing else |
| `TimerSpec.ExitOverlay` | index.tsx:229 | closing the overlay hides it and changes nothing else; the timer keeps running |
| `TimerSpec.BeginEdit` | index.tsx:275 | clicking the clock opens the editor on the whole minutes left; keeps `Inv` (the text is at most three digits) |
| `TimerSpec.TypeEdit` | index.tsx:273 | a change is kept iff it is zero to three ASCII digits; keeps `Inv` |
| `TimerSpec.EditedMinutes` | index.tsx:181 | the parsed minutes, or 25 when the text parses as NaN or 0; between 1 and 999 for text of up to three characters |
| `TimerSpec.SaveEdit` | index.tsx:179-186 | stored length = phase length = countdown = minutes × 60, a whole number of minutes from 1 to 999; mode and running flag are unchanged; keeps `Inv` |
| `TimerSpec.MinutesText` | index.tsx:275 | the editor's text for a non-negative number of seconds is all digits and reads back through `parseInt` as the whole minutes, `Math.floor(seconds / 60)` |
| `TimerSpec.MinutesTextAccepted` | App.tsx:99 | the minutes text of any length up to 999 min 59 s passes the editor's filter |
| `TimerSpec.Step` | index.tsx:156-186 | every event keeps `Inv` |
| `TimerSpec.RunPreservesInv` | index.tsx:114-186 | every sequence of events keeps `Inv` |
| `TimerSpec.Reachable` | index.tsx:169-177 | from start-up, no event sequence reaches `LongBreak`, a negative or overfull countdown, or an invalid stored length |
| `TimerSpec.TicksCountDown` | index.tsx:158 | `n` callbacks on a running countdown with at least `n` seconds left lower it by exactly `n` and change nothing else |
| `TimerSpec.TicksWhilePaused` | index.tsx:158 | callbacks on a stopped timer change nothing |
| `TimerSpec.SkipMatchesNaturalCompletion` | App.tsx:79-101 | skipping a running phase at any moment gives the same state as counting it down to zero and letting the effect complete it |
| `TimerSpec.FocusBreakCycle` | App.tsx:92-101 | two completions from focus return to a paused, full focus phase at the current stored length |
| `TimerSpec.EditWithoutTyping` | App.tsx:103-110 | opening and leaving the editor rounds the countdown down to whole minutes, or resets it to 25 minutes when under a minute was left |
| `TimerSpec.EditMinutes` | App.tsx:103-110 | typing `m` (1–999) and leaving sets stored length, phase length and countdown to `m`·60 without touching mode or running flag |
| `TimerSpec.FreshSessionScenario` | App.tsx:41-110 | empty store → 1500 s; edit to 10 → 600 s focus; run it down → paused 300 s break; run that down → paused 600 s focus (the edited length survives) |
| `TimerSpec.EditOpenAcrossCompletion` | App.tsx:92-110 | in the modular build, if the editor is open when a focus phase ends, its text becomes "5" and leaving it then stores 300 s as the focus length; the single-file build keeps the typed text |
| `Timer.FocusTimer.constructor` | App.tsx:41-51 | the fields start as `TimerSpec.Initial` and satisfy `Inv` |
| `Timer.FocusTimer.Tick` | App.tsx:81 | the fields become `TimerSpec.Tick` of the old ones; `Inv` is kept |
| `Timer.FocusTimer.Complete` | App.tsx:92-101 | the fields become `TimerSpec.Complete` of the old ones, resetting the editor text in the modular build; `Inv` is kept |
| `Timer.FocusTimer.Settle` | App.tsx:79-84 | the fields become `TimerSpec.Settle` of the old ones; `Inv` is kept |
| `Timer.FocusTimer.ToggleActive` | App.tsx:153 | the fields become `TimerSpec.ToggleActive` of the old ones |
| `Timer.FocusTimer.Play` | App.tsx:203 | the fields become `TimerSpec.Play` of the old ones |
| `Timer.FocusTimer.OpenOverlay` | App.tsx:189 | the fields become `TimerSpec.OpenOverlay` of the old ones |
| `Timer.FocusTimer.ExitOverlay` | App.tsx:153 | the fields become `TimerSpec.ExitOverlay` of the old ones: only the overlay flag changes |
| `Timer.FocusTimer.BeginEdit` | App.tsx:199 | the fields become `TimerSpec.BeginEdit` of the old ones; `Inv` is kept |
| `Timer.FocusTimer.TypeEdit` | App.tsx:197 | the fields become `TimerSpec.TypeEdit` of the old ones; `Inv` is kept |
| `Timer.FocusTimer.SaveEdit` | App.tsx:103-110 | the fields become `TimerSpec.SaveEdit` of the old ones; `Inv` is kept |
| `Decimal.NatToString` | App.tsx:77 | the `toString()` of a whole number is a non-empty run of digits with no leading zero |
| `Decimal.IntToString` | index.tsx:275 | a non-negative integer prints as its digits; a negative one starts with a minus sign |
| `Decimal.LeadingDigits` | index.tsx:181 | the longest run of digits at the start of the text: all digits, a prefix, followed by a non-digit or the end |
| `Decimal.ParseIntOfIntToString` | index.tsx:181 | `parseInt` of the printed non-negative integer gives it back |
| `Decimal.ParseIntPadded` | index.tsx:181 | `parseInt` of a number after any leading zeros and before a non-digit reads exactly that number (`"007"` reads 7) |
| `Decimal.ParseInt` | index.tsx:181 | NaN exactly when the text does not start with a digit; at most 999 for text of up to three characters |
| `Decimal.DigitsValueOfNatToString` | index.tsx:275 | reading back the decimal text of a number gives the number |
| `Decimal.NatToStringLength` | index.tsx:273 | a number below 10^k has at most k digits |
| `Seqs.Filter` | index.tsx:209 | the result is no longer than the input, and every element of it passes the test |
| `Seqs.FilterSpec` | index.tsx:209 | the result holds exactly the elements that pass, each as often as in the input, in input order |
| `Seqs.FilterUndoesAppend` | App.tsx:142-144 | removing an element just appended, when only it fails the test, gives back the original sequence |
| `Goals.DoneCount` | index.tsx:204 | the number of done tasks is at most the number of tasks |
| `Goals.RoundPercent` | index.tsx:205 | the result is between 0 and 100 and is the nearest whole number to 100·done/total, with halves rounded up; it is 0 for none done and 100 for all done |
| `Goals.Progress` | index.tsx:205 | the progress is between 0 and 100, 0 for an empty task list, and otherwise the rounded done percentage |
| `Goals.ProgressExtremes` | index.tsx:205 | all tasks done gives 100; no task done gives 0 |
| `Goals.FlipStatus` | index.tsx:203 | the result is done exactly when the old status was not done, and it is never in-progress |
| `Goals.ToggleInGoal` | index.tsx:202-205 | exactly the tasks with the id flip, nothing else of them changes, and the progress matches the new tasks |
| `Goals.ToggleTask` | index.tsx:200-207 | only matching tasks of matching goals flip; other goals and tasks are unchanged; matching goals' progress is recomputed; consistent progress stays consistent |
| `Goals.ToggleTaskTwice` | index.tsx:200-207 | toggling twice restores the list when progress was up to date and no toggled task was in progress |
| `Goals.ToggleTwiceLosesInProgress` | index.tsx:203 | an in-progress task toggled twice ends up to-do, not in-progress |
| `Goals.DeleteInGoal` | index.tsx:212-215 | the goal keeps exactly its other tasks, in order, and its progress is recomputed (0 when none are left) |
| `Goals.DeleteTask` | index.tsx:210-217 | matching goals lose exactly the tasks with the id, keep the rest with their multiplicity and in order, and get their progress recomputed; other goals are unchanged |
| `Goals.DeleteGoal` | index.tsx:209 | exactly the goals with the id are removed; the rest keep their multiplicity and order; consistency is kept |
| `Goals.TrimStart` | App.tsx:113 | the result is a suffix of the text, all removed characters are ECMAScript white space and the first kept one is not |
| `Goals.TrimEnd` | App.tsx:113 | the result is a prefix of the text, all removed characters are white space and the last kept one is not |
| `Goals.Trim` | App.tsx:113 | the trimmed text is the slice of the text left after removing the white space at the front and at the back; everything removed is white space, and the result neither begins nor ends with white space |
| `Goals.BlankIffAllWhiteSpace` | App.tsx:113 | `!s.trim()` holds exactly when every character of the text is white space |
| `Goals.AddGoal` | App.tsx:112-115 | a blank title (trimmed to nothing) leaves the list alone; otherwise exactly one goal with the untrimmed title, no tasks and progress 0 is appended at the end |
| `Goals.TaskId` | App.tsx:119 | a generated task id starts with the goal id followed by `-` |
| `Goals.TaskIdInjective` | App.tsx:119 | two generated ids of one goal are equal only for the same index |
| `Goals.MakeTasks` | App.tsx:119 | one to-do task per suggestion, in order, the `i`-th with id `goalId-i` |
| `Goals.MakeTasksDistinct` | App.tsx:119 | the generated tasks have pairwise distinct ids, and their progress is 0 |
| `Goals.AttachTasks` | App.tsx:120 | only goals with the id get the generated tasks; their progress and all other goals are unchanged |
| `Goals.AddThenAttach` | App.tsx:112-122 | adding under a fresh id and attaching appends one goal holding the generated tasks at progress 0, and the list stays consistent |
| `Goals.AttachAfterDelete` | App.tsx:120 | if the goal was deleted before its suggestions arrived, attaching them changes nothing |
| `Goals.DeleteUndoesAdd` | App.tsx:133 | deleting a goal just added under a fresh id gives back the list before |
| `VisionBoard.AddVision` | App.tsx:142 | empty content is ignored; otherwise exactly one captionless card is appended at the end |
| `VisionBoard.DeleteVision` | App.tsx:238 | exactly the cards with the id are removed, the rest keep their multiplicity and order |
| `VisionBoard.DeleteUndoesAdd` | App.tsx:142 | deleting a card just added under a fresh id gives back the board before |
| `Exams.AddExam` | App.tsx:143 | ignored unless subject and date are both non-empty; otherwise exactly one exam with no topics and the converted date is appended at the end |
| `Exams.DeleteExam` | App.tsx:144 | exactly the exams with the id are removed, the rest keep their multiplicity and order |
| `Exams.DeleteUndoesAdd` | App.tsx:143-144 | deleting an exam just added under a fresh id gives back the list before |

## Left out

- Rendering is not modelled: JSX, icons, CSS classes, tabs, and the `ProgressBar` and `FullScreenFocus` markup.
- The overlay's floating-point progress bar percentage and its clamp are not modelled.
- Persistence to `localStorage` is not modelled. Every collection and the focus length are written after each change and read back with `JSON.parse` and `parseInt`. In the model, the stored focus length is the `stored` parameter, with absent meaning 1500.
- `TimerSpec.Initial`: the model requires the stored value to be one the app writes itself, a whole number of minutes from 1 to 999. The model does not cover `parseInt` of arbitrary stored text, where malformed text gives NaN rather than the default.
- `Timer.FocusTimer.constructor`: has the same restriction on the stored value as `TimerSpec.Initial`.
- Scheduling is not modelled. `setInterval`/`useEffect` are replaced by explicit `Tick` and `Settle` steps. The model does not cover how React batches or interleaves state updates, or the 60-second clock refresh.
- Date and clock arithmetic is not modelled: the days until 2027 and until year end, the days left per exam, and the in-place sort of exams by date during rendering.
- The text-suggestion service (`services/geminiService.ts`) is not modelled: it calls a remote language model over the network and, on failure, falls back to fixed texts. The local stubs in `index.tsx` that stand in for it are not modelled either; they shuffle fixed lists at random and wait on timers.
  - The suggested task titles are the `titles` parameter of `Goals.AttachTasks`.
  - The motivational line, the exam study tips (`getTips`) and their loading flags are not modelled.
- Ids from `Date.now()` are parameters. The model does not claim they are unique; the lemmas that need a fresh id require it.
- UI-only input state is not modelled: the goal, vision and exam input fields and their clearing after a successful add, and `loadingGoalId`.
- `Goals.RoundPercent`: uses exact half-up rounding. The source computes `Math.round((done / n) * 100)` in binary floating point, which can differ at an exact half.
- `Decimal.ParseInt`: reads only a run of ASCII digits at the start of the text. `parseInt` also skips leading white space, reads a `+` or `-` sign and reads a `0x` prefix as hexadecimal. For text starting with white space or a sign the model gives NaN; for text starting with `0x` it reads the leading `0` and gives 0. The editor text never has them (it is 0–3 digits under `Inv`).
- `TimerSpec.EditedMinutes`: does not model how `parseInt` handles leading blanks or a sign. This cannot be reached, because the editor text is always 0–3 digits (part of `Inv`).
- `TimerSpec.MinutesText`: renders whole minutes. For a length that is not a whole number of minutes, the source would print a fraction. This cannot be reached under `Inv`.
- `Exams.AddExam`: date conversion is the `toIso` parameter. The model does not cover `toISOString` throwing on an invalid date; a date input does not produce one.
