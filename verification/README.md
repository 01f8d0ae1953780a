# Study dashboard and onboarding wizard: a Dafny model

This project models the stateful logic of two client pages of a student-productivity web app.

The **dashboard** (`app/dashboard/page.tsx`) contributes four pieces:
- a focus (Pomodoro) timer that counts down 25 minutes of focus and 5 minutes of break;
- a task list with toggling and adding, plus the completed count, the rounded progress percentage and the "due today" count derived from it;
- the previous/next/flip navigation of the flashcard viewer;
- the label the admission-chance tab puts on a chance.

The **onboarding wizard** (`app/onboarding/page.tsx`) contributes:
- a seven-step questionnaire whose Next button stores an answer and moves on;
- on the last step, handing all answers to the profile save;
- the multi-choice toggle, the rule for enabling the Next button, and the comma-split of the dream-schools answer.

There are six modules:
- `Text` holds the JavaScript string operations the pages use: `trim`, `split` with a one-character separator, `String(n)` and `padStart`. It also defines `Join`, the model's own inverse of `Split`, which the pages do not call.
- `Pomodoro` holds the timer. A pure `TimerState` transition function and a class `Timer` hold the four state cells the page updates in place.
- `Tasks` holds the task list. It is pure, because the page builds a new array on every change.
- `Flashcards` and `Chancer` are small pure modules.
- `Onboarding` holds the wizard. Its pure helpers sit beside a class `Wizard` with the page's five state cells.

Points where the model's reading of the code needs stating:
- **Progress on an empty list.** On an empty list the code divides by zero. `Tasks.Progress` requires a non-empty list, and `Tasks.ReachableNonEmpty` shows the list the page starts with can never become empty.
- **Start/pause.** One button negates `running`; starting and pausing are the same operation, `Pomodoro.Toggled`.
- **`addTask`'s result.** The code returns nothing; it appends the task and clears the input field. The model returns the new list together with the new input.
- **Tick while paused.** The code registers no interval while paused. `NextTick` therefore leaves a paused state unchanged.
- **Seconds at 0:00.** When the countdown elapses, the code reloads only the minutes. The seconds cell keeps its value, which is 0 in every reachable state.

## Model

| member | source | states |
|---|---|---|
| Pomodoro.NextTick | app/dashboard/page.tsx:82-102 | A paused timer is unchanged. A running timer with time left keeps its mode and stays running, and its remaining seconds drop by exactly one. At 0:00 it stops, flips mode and loads the new mode's full minutes. The 0..59 / 0..25 bounds are kept. |
| Pomodoro.ResetTo | app/dashboard/page.tsx:256-257 | The Focus/Break button gives (mode, its full minutes, 0 seconds, paused) whatever the state was, and that state is in bounds. |
| Pomodoro.Toggled | app/dashboard/page.tsx:268 | Start/pause negates `running` and leaves mode, minutes and seconds unchanged. |
| Pomodoro.StartPauseTwice | app/dashboard/page.tsx:268 | Pressing start/pause twice restores the state. |
| Pomodoro.RunInRange | app/dashboard/page.tsx:85-98 | Any sequence of ticks and button presses from an in-bounds state stays in bounds. |
| Pomodoro.ReachableInRange | app/dashboard/page.tsx:74-77 | Every state reachable from the initial (focus, 25:00, paused) has 0 <= seconds <= 59 and 0 <= minutes <= 25. |
| Pomodoro.PausedTicks | app/dashboard/page.tsx:83 | Any number of ticks on a paused timer changes nothing. |
| Pomodoro.TicksStep | app/dashboard/page.tsx:84-100 | n+1 ticks are one tick after n ticks. |
| Pomodoro.CountdownReachesZero | app/dashboard/page.tsx:85-89 | A running countdown reaches 0:00, same mode and still running, after exactly as many ticks as it has seconds remaining. |
| Pomodoro.FocusSession | app/dashboard/page.tsx:74-98 | After a start from the initial state, 1500 ticks show focus 0:00 still running, and the 1501st gives a paused 5:00 break. |
| Pomodoro.Pad2ReadsBack | app/dashboard/page.tsx:264 | `String(n).padStart(2, "0")` for n < 100 is two digits that read back as n. |
| Pomodoro.ClockReadsBack | app/dashboard/page.tsx:264 | The clock face for values below 100 is 5 characters with ':' in the middle, and each half reads back as minutes and seconds. |
| Pomodoro.Timer.constructor | app/dashboard/page.tsx:74-77 | The timer starts at focus, 25:00, paused, within bounds. |
| Pomodoro.Timer.Tick | app/dashboard/page.tsx:84-100 | The interval callback updates the four cells to exactly `NextTick` of the old state and keeps the bounds. |
| Pomodoro.Timer.SelectMode | app/dashboard/page.tsx:256-257 | The mode buttons set the cells to `ResetTo(m)`. |
| Pomodoro.Timer.StartPause | app/dashboard/page.tsx:268 | The button sets the cells to `Toggled` of the old state. |
| Pomodoro.Timer.Display | app/dashboard/page.tsx:264 | The shown countdown is 5 characters with ':' at index 2, halves being the padded minutes and seconds. |
| Tasks.ToggleTask | app/dashboard/page.tsx:104-106 | Length, order, id, text, priority and due are preserved. `done` flips exactly on the tasks whose id matches. An absent id leaves the list unchanged. |
| Tasks.ToggleTwice | app/dashboard/page.tsx:104-106 | Toggling the same id twice restores the list. |
| Tasks.AddTask | app/dashboard/page.tsx:108-113 | Whitespace-only input leaves the list and the input as they are. Otherwise one task is appended after the untouched old tasks: the untrimmed text, done false, priority medium, due "This week", the given time as id. The input is then cleared. |
| Tasks.CompletedCount | app/dashboard/page.tsx:115 | 0 <= completed <= length. It is 0 iff no task is done and equals the length iff all are. |
| Tasks.CompletedCountAppend | app/dashboard/page.tsx:115 | The completed count of a concatenation is the sum of the counts. |
| Tasks.ToggleUniqueCount | app/dashboard/page.tsx:104-106 | Toggling an id held by exactly one task moves the completed count by one, down if that task was done and up if not. |
| Tasks.AddTaskCompleted | app/dashboard/page.tsx:108-113 | Adding a task never changes the completed count. |
| Tasks.DueTodayCount | app/dashboard/page.tsx:209 | The due-today count plus the completed count is at most the length. It is 0 iff every task is done or not due "Today". |
| Tasks.DueTodayCountAppend | app/dashboard/page.tsx:209 | The due-today count is additive over concatenation. |
| Tasks.DueTodayCountOne | app/dashboard/page.tsx:209 | A single task counts 1 exactly when it is not done and due "Today"; with the append lemma this fixes the count of every list. |
| Tasks.AddTaskDueToday | app/dashboard/page.tsx:108-113 | A new task is due "This week", so adding one never changes the due-today count. |
| Tasks.Progress | app/dashboard/page.tsx:116 | For a non-empty list the result is in 0..100 and is the integer nearest to 100·completed/length, halves rounding up. |
| Tasks.RoundHalfUp | app/dashboard/page.tsx:116 | `(200c + n) / (2n)` is at most 100 and within one half of 100c/n, ties going up. |
| Tasks.ProgressAllDone | app/dashboard/page.tsx:115-116 | All tasks done gives 100. |
| Tasks.ProgressNoneDone | app/dashboard/page.tsx:115-116 | No task done gives 0. |
| Tasks.ProgressFullIffAllDone | app/dashboard/page.tsx:115-116 | Below 200 tasks, progress is 100 iff every task is done. |
| Tasks.ProgressZeroIffNoneDone | app/dashboard/page.tsx:115-116 | Up to 200 tasks, progress is 0 iff no task is done. |
| Tasks.ProgressRoundsAwayOne | app/dashboard/page.tsx:116 | From 200 tasks on, all but one done still shows 100. From 201 tasks on, exactly one done still shows 0. The bounds of the two lemmas above are therefore tight. |
| Tasks.ReplayKeepsTasks | app/dashboard/page.tsx:104-113 | No toggle or add shortens the list. Earlier tasks keep their place, id, text, priority and due. |
| Tasks.ReachableNonEmpty | app/dashboard/page.tsx:32-38 | From the five initial tasks the list always has at least five tasks, so the progress division is always defined. |
| Tasks.InitialFigures | app/dashboard/page.tsx:32-38 | The initial list shows 1 done, 20% and 2 tasks due today. |
| Flashcards.Flip | app/dashboard/page.tsx:443 | Clicking the card flips the side and keeps the index. |
| Flashcards.Previous | app/dashboard/page.tsx:453 | The left arrow moves one card back, not below 0, never forward, and shows the question side. |
| Flashcards.Next | app/dashboard/page.tsx:455 | The right arrow moves one card on, not past count-1, keeps a valid index valid, and shows the question side. |
| Flashcards.PreviousUndoesNext | app/dashboard/page.tsx:453-455 | Away from the last card, left undoes right, up to the flip. |
| Flashcards.NextUndoesPrevious | app/dashboard/page.tsx:453-455 | Away from the first card, right undoes left, up to the flip. |
| Flashcards.NextTimesClamps | app/dashboard/page.tsx:455 | k presses of the right arrow land on min(index + k, count - 1). |
| Chancer.GetLabel | app/dashboard/page.tsx:577-582 | The label's rank (Reach < Hard Target < Target < Safety) is the number of thresholds 15, 50, 75 the chance has reached. |
| Chancer.GetLabelMonotone | app/dashboard/page.tsx:577-582 | A higher chance never gets a lower label. |
| Chancer.LabelsDistinct | app/dashboard/page.tsx:577-582 | The four label texts are distinct, and every label is produced by some chance. |
| Text.Trim | app/dashboard/page.tsx:110 | The result has no surrounding whitespace. It is the infix of the input left after removing blank padding on both sides. It is empty iff the input is whitespace only. |
| Text.TrimIdempotent | app/onboarding/page.tsx:90 | Trimming twice is trimming once. |
| Text.Split | app/onboarding/page.tsx:90 | `split` gives (number of separators + 1) pieces, none containing the separator. |
| Text.JoinSplit | app/onboarding/page.tsx:90 | Joining the pieces of a split with the separator gives back the string. |
| Text.SplitJoin | app/onboarding/page.tsx:90 | Splitting the join of separator-free pieces gives back the pieces. |
| Text.Decimal | app/dashboard/page.tsx:264 | `String(n)` is a non-empty digit string, one digit long iff n < 10, that reads back as n and starts with '0' only for n = 0 (no leading zero). |
| Text.PadStart | app/dashboard/page.tsx:264 | `padStart` keeps a long enough string and otherwise prepends fill characters to reach the width. The original string is the suffix. |
| Onboarding.IdsDistinct | app/onboarding/page.tsx:9-52 | The seven step ids are pairwise distinct, so storing one answer never overwrites another. |
| Onboarding.AnswerFor | app/onboarding/page.tsx:67 | The stored value is the selected list on the multi-choice step and the current answer on every other step. |
| Onboarding.NextDisabled | app/onboarding/page.tsx:186-191 | Next is disabled exactly when saving, or when the value it would store is empty (empty text on a text or choice step, no selection on the multi-choice step). |
| Onboarding.KeySubmits | app/onboarding/page.tsx:144 | A key press submits exactly when the key is Enter, the step is a text step and the answer is non-empty. |
| Onboarding.KeySubmitsWhenNextEnabled | app/onboarding/page.tsx:144 | Whatever Enter submits, the Next button, when not saving, also accepts. |
| Onboarding.Without | app/onboarding/page.tsx:100 | Filtering out c removes every c and keeps every other element with its number of occurrences. |
| Onboarding.WithoutConcat | app/onboarding/page.tsx:100 | Filtering distributes over concatenation, so the kept elements stay in order. |
| Onboarding.WithoutTwice | app/onboarding/page.tsx:100 | Filtering out c twice is filtering once. |
| Onboarding.WithoutAppended | app/onboarding/page.tsx:100 | Appending c and filtering it out is filtering it out. |
| Onboarding.ToggleMembership | app/onboarding/page.tsx:98-102 | Membership of c flips. Other elements keep their membership and their relative order. An absent c is appended at the end. |
| Onboarding.ToggleTwiceRestores | app/onboarding/page.tsx:98-102 | Toggling an absent choice twice restores the list. |
| Onboarding.StepNumber | app/onboarding/page.tsx:110 | "Step n of 7" has n in 1..7, and n = 7 exactly on the last step. |
| Onboarding.StepPercent | app/onboarding/page.tsx:111 | The percentage is in 1..100, reaches 100 exactly on the last step, and is the rounded (step+1)/7 of 100. |
| Onboarding.StepPercentIncreases | app/onboarding/page.tsx:111 | The percentage strictly grows from step to step. |
| Onboarding.TrimKeepsOut | app/onboarding/page.tsx:90 | Trimming never introduces a character. |
| Onboarding.DreamSchools | app/onboarding/page.tsx:90 | The dream-schools list has one entry per comma plus one. Each entry is comma-free and has no surrounding whitespace. |
| Onboarding.DreamSchoolsRoundTrip | app/onboarding/page.tsx:90 | Comma-free names joined by commas come back as the same names trimmed, in order; names without surrounding spaces come back unchanged. With `Text.JoinSplit` this covers every answer. |
| Onboarding.ProfileOf | app/onboarding/page.tsx:83-93 | The upserted row carries the user id and `onboarded` true; name, school, grade, gpa, sat and interests are the answers stored under those ids, and the dream schools are `DreamSchools` of the free-text dream_schools answer. |
| Onboarding.StepIds | app/onboarding/page.tsx:9-52 | The seven step ids, in order: name, school, grade, gpa, sat, dream_schools, interests. |
| Onboarding.Wizard.constructor | app/onboarding/page.tsx:57-61 | The wizard starts on step 0 with no answers, empty inputs and not saving. |
| Onboarding.Wizard.SetCurrentAnswer | app/onboarding/page.tsx:143 | Typing, or clicking a choice (line 157), sets the current answer and nothing else. |
| Onboarding.Wizard.ToggleChoice | app/onboarding/page.tsx:173 | Clicking a multi-choice option applies `ToggleMembership` to the selection. |
| Onboarding.Wizard.HandleNext | app/onboarding/page.tsx:66-77 | The answer is stored under the current step's id and all other keys are unchanged. Before the last step: step + 1, inputs cleared, nothing saved. On the last step: the step stays, every step has an answer, and with a user the save starts with the merged answers. The invariant (step in 0..6, earlier steps answered, saving only on the last step) is kept. |
| Onboarding.Wizard.HandleSave | app/onboarding/page.tsx:79-96 | Without a user nothing happens. With one, `saving` becomes true and the row is built from the final answers. |
| Onboarding.Wizard.PressKey | app/onboarding/page.tsx:144 | Enter with a non-empty text answer stores it, moves to the next step, clears both inputs and saves nothing (a text step is never the last). Any other key press changes nothing. |

## Left out

- The `setInterval`/`clearInterval` scheduling and the effect's cleanup: only the effect of one tick is modelled.
- All rendering, styling and animation.
- The canned flashcard data and the `setTimeout` delays of the notes and chance tabs.
- The admission-chance formula: it uses `parseFloat`/`parseInt` and floating-point arithmetic. `Chancer.GetLabel` takes the chance as a real, so it cannot show NaN: when the GPA or SAT field does not parse, NaN passes through `Math.max`/`Math.min`, every comparison in `getLabel` is false, and the label is "Safety".
- Tasks.Progress: models `Math.round` of the double-precision quotient as exact rational rounding, half up. Floating-point error in `completed / total * 100` is not modelled.
- Onboarding.StepPercent: the same exact-rounding treatment as `Tasks.Progress`.
- `Date.now()` and `toLocaleDateString`: the time used as a new task's id is a parameter. Uniqueness of ids is not assumed, and `ToggleTask` flips every task with a matching id.
- Clerk's `useUser`, the Supabase upsert and `router.push`. The signed-in user is an `Option` parameter. The save is modelled up to the row it would upsert; the network call, its result and the redirect are not modelled.
- Text.Trim: whitespace is the ASCII set (tab, LF, VT, FF, CR, space). JavaScript's `trim` also removes the other Unicode space separators, NBSP and the byte-order mark.
- The marketing page, the layout, the login page and the Clerk middleware (`app/page.tsx`, `app/layout.tsx`, `app/login/page.tsx`, `proxy.ts`): markup, a mouse listener, and route matching done inside the authentication library.
