# To-do list tracker: a Dafny model

This project models the logic of a browser to-do list (`script.js`). The page keeps:

- a global array of tasks, where each task has an id, text, a completed flag, a status, tags, a duration in seconds, an attachment and comments;
- one stopwatch, made of the globals `activeTimer`, `activeTimerTaskId` and `timerStartTime`.

The event handlers change the task array and the stopwatch in place. The model covers:

- `addTask`, `toggleComplete`, `deleteTask`, `addComment`, `startTimer`, `stopTimer`;
- the part of `editTask` that decides whether to open the form and whether to cancel another task's timer;
- `saveTask`, including its duration decoder and its tag splitting;
- `formatTime`;
- the filter predicate of `renderTasks`.

Modules:

- `Text`: JavaScript's `trim`, `split` on one character, `join`, ASCII `toLowerCase` and `includes`.
- `Duration`: `formatTime` and the `HH:MM:SS` / `MM:SS` / `SS` decoder of `saveTask`.
- `Tags`: the tag text split on commas, trimmed, with empty pieces dropped.
- `Tasks`: task records and the pure transitions of the task array.
- `Filter`: which tasks `renderTasks` shows.
- `Stopwatch`: the timer globals and the `startTimer` / `stopTimer` transitions.
- `Lifecycle`: the `editTask` prologue and `saveTask`.
- `Tracker`: the class `TaskTracker`. It holds the task array and the three timer globals as fields. Each handler is an imperative method that follows the source step by step. Each method is proved to produce exactly the state that the pure transition of the same operation describes: `AddTask` / `Tasks.WithNewTask`, `ToggleComplete` / `Tasks.WithToggled`, `DeleteTask` / `Tasks.WithoutId`, `AddComment` / `Tasks.WithComment`, `StartTimer` / `Stopwatch.Started`, `StopTimer` / `Stopwatch.Stopped`, `EditTask` / `Lifecycle.EditEntered` and `SaveTask` / `Lifecycle.Saved`.

The model follows the code as written, including where it does less than its own comments say. Those comments say "If another timer is active, stop it first" (`script.js:427`) and "Stop any active timer if a different task is being edited" (`script.js:254`):

- `startTimer` cancels a running timer without adding its elapsed time. `editTask` does the same when another task is edited. `Stopwatch.StartDropsRunningTime` exhibits the loss.
- The guard "if the Edit button already reads Save, do nothing" (`script.js:246-252`) never fires. It looks the button up by its `edit-btn` class (`script.js:241`), which opening the form replaces by `save-btn` (`script.js:363-364`). The Edit listener is never removed: `script.js:365` passes a new function to `removeEventListener`. So a Save click runs `editTask` again before `saveTask`, and cancels any other task's running timer without adding its elapsed time. See `Lifecycle.SaveClickDropsOtherTime` and "## Findings".
- After that cancellation, `startTimer` re-renders the list. This removes the edit form, which holds the row's timer buttons. The handler then dereferences the missing start button and fails before `setInterval`. What remains is an id and a start time but no interval. See `Stopwatch.StartedWhileRunning` and "## Findings".
- `editTask` re-renders after cancelling another task's timer. It then builds its form on the row it fetched before the re-render, which is no longer on the page, so no form appears (`Tracker.TaskTracker.EditTask`).
- `deleteTask` leaves the timer globals as they are. A later `stopTimer` for the deleted id then clears the id but keeps `timerStartTime`. See `Stopwatch.StopAfterDelete`.
- `saveTask` first stops this task's timer, which adds the elapsed time. It then overwrites the duration with the decoded text of the form's duration box. See `Lifecycle.SaveAfterStop` and `Lifecycle.SaveWhileRunningUsesText`.

## Model

| member | source | states |
|---|---|---|
| Text.Trim | script.js:182 | the result is no longer than the input and neither starts nor ends with white space, and a string that already has non-space ends is returned unchanged |
| Text.TrimIsSlice | script.js:182 | the trimmed text is a contiguous slice of the input, and everything cut off before and after it is white space |
| Text.BlankIffAllSpace | script.js:183 | a string trims to '' exactly when every character is ECMAScript white space |
| Text.Split | script.js:401 | `split` on one character gives at least one piece, no piece contains the separator, and joining the pieces with it gives back the input |
| Text.SplitPrefix | script.js:401 | splitting `a + b`, where `a` has no separator, glues `a` onto the first piece of `b` |
| Text.SplitAppend | script.js:413 | splitting `a + sep + b` gives the pieces of `a` followed by the pieces of `b` |
| Text.SplitJoin | script.js:401 | splitting pieces joined with a separator none of them contains gives back the pieces |
| Text.Lower | script.js:54 | `toLowerCase` maps each character by itself and keeps the length |
| Text.Includes | script.js:54 | `includes` holds exactly when the needle starts at some position of the haystack |
| Text.Join | script.js:303 | `join`: the pieces with the separator between each pair; no contract of its own, `Text.Split` and `Text.SplitJoin` state its round trip with `split` |
| Duration.Decimal | script.js:37 | `String(num)` is a numeral with no leading zero whose value is the number, one digit exactly below 10 |
| Duration.Pad2 | script.js:37 | `padStart(2, '0')` gives a numeral of the same value, at least two digits, exactly two below 100, and `String(n)` itself from 10 on |
| Duration.FormatTime | script.js:32-39 | `formatTime`: padded hours, minutes and seconds joined by ':'; no contract of its own, `Duration.FormatTimeFields` and `Duration.DecodeFormatTime` state it |
| Duration.DecodeDuration | script.js:401-409 | the decoder: split on ':' and read the fields; no contract of its own, the four `Decode...Field(s)` lemmas and `Duration.DecodeFormatTime` state it |
| Duration.DecodeFields | script.js:402-409 | the three branches on the number of fields and the fall-through to 0; no contract of its own, stated by the same lemmas |
| Duration.FormatTimeFields | script.js:32-39 | `formatTime` yields three numeral fields: hours of at least two digits worth `total / 3600` (exactly `String` of it from 10 hours on), then minutes and seconds of two digits each below 60, which recombine to the total |
| Duration.DecodeFormatTime | script.js:401-409 | the decoder of `saveTask` turns every `formatTime` output back into its number of seconds |
| Duration.DecodeThreeFields | script.js:403-404 | `H:M:S` decodes to `H*3600 + M*60 + S` |
| Duration.DecodeTwoFields | script.js:405-406 | `M:S` decodes to `M*60 + S` |
| Duration.DecodeOneField | script.js:407-408 | a bare numeral decodes to itself |
| Duration.DecodeTooManyFields | script.js:401-409 | four or more fields fall through every branch and leave the total at 0 |
| Tags.TrimNonEmpty | script.js:413 | trimming the pieces and dropping the empty ones yields trimmed, non-empty tags, never more than the pieces |
| Tags.TrimNonEmptyKeepsAll | script.js:413 | when no piece is blank, every piece survives, trimmed, in place |
| Tags.TrimNonEmptyDropsBlank | script.js:413 | when every piece is blank, no tag survives |
| Tags.TrimNonEmptyOne | script.js:413 | one piece gives its trimmed text as the only tag, or no tag when it is blank |
| Tags.TrimNonEmptyAppend | script.js:413 | the pieces are handled one by one: processing `a + b` gives the result for `a` followed by the result for `b` |
| Tags.ParseTags | script.js:413 | the parsed tags are non-empty, trimmed and free of commas; which tags result is stated by `Tags.ParseTagsOne` and `Tags.ParseTagsAppend` |
| Tags.ParseTagsOne | script.js:413 | text without a comma gives its trimmed text as the only tag, or no tag when it is blank |
| Tags.ParseTagsAppend | script.js:413 | the tags of `a + ',' + b` are the tags of `a` followed by those of `b`: every piece in order, trimmed, blank ones dropped, duplicates kept |
| Tags.ParseJoined | script.js:413 | parsing pieces joined with commas is trimming them and dropping the empty ones |
| Tags.ParseJoinedTags | script.js:303 | normalised tags shown as `tags.join(', ')` parse back to the same tags |
| Tasks.FindIndex | script.js:209 | `findIndex` gives the first position holding the id, and None exactly when no task has it |
| Tasks.WithNewTask | script.js:181-202 | a blank input changes nothing; otherwise exactly one task is appended, with trimmed non-empty text, not completed, 'To Do', no tags, duration 0, no attachment and no comments |
| Tasks.WithToggled | script.js:208-215 | only the first task with the id changes, and only its completed flag, which is negated |
| Tasks.ToggleTwice | script.js:208-215 | toggling the same id twice restores the list |
| Tasks.WithoutId | script.js:221-225 | no remaining task has the id, and every other task keeps its number of occurrences |
| Tasks.WithoutIdIsSubsequence | script.js:222 | deleting keeps the remaining tasks in their order |
| Tasks.WithoutAbsentId | script.js:222 | deleting an id no task carries leaves the list as it was |
| Tasks.WithComment | script.js:511-521 | for a known id and non-blank text, exactly one comment with the trimmed text and the timestamp is appended to the first task with the id, and nothing else changes; otherwise nothing changes |
| Filter.FilterTasks | script.js:47-58 | every kept task passes the status and tag match, and each task occurs in the result exactly as often as in the input when it passes, never otherwise |
| Filter.Keep | script.js:49-57 | the filter predicate: the status match and the tag match; no contract of its own, `Filter.FilterTasks` and `Filter.Visible` state what it selects |
| Filter.StatusMatch | script.js:49 | `'all'` or equal status; no contract of its own, `Filter.FilterByStatus` and `Filter.FilterUnfiltered` state it |
| Filter.TagMatch | script.js:53-55 | no terms, or some term matches; no contract of its own, `Filter.FilterUnfiltered` states the no-terms case |
| Filter.SomeTagContains | script.js:54-55 | some term, lower-cased, is a substring of some lower-cased tag; no contract of its own, `Text.Lower` and `Text.Includes` state its parts |
| Filter.Visible | script.js:47-58 | a task is shown exactly when it is in the list and passes the status match and the tag match against the parsed filter terms |
| Filter.FilterTasksIsSubsequence | script.js:47-58 | filtering keeps the order of the tasks |
| Filter.VisibleIsSubsequence | script.js:47-58 | the shown tasks appear in the order of the task list |
| Filter.FilterUnfiltered | script.js:49-54 | status 'all' with no tag terms keeps every task |
| Filter.VisibleUnfiltered | script.js:49-54 | status 'all' with a tag filter text that yields no terms shows the whole list in order |
| Filter.FilterByStatus | script.js:49 | with no tag terms, a status filter keeps exactly the tasks of that status, each as often as it occurs |
| Filter.VisibleByStatus | script.js:49-57 | with a tag filter text that yields no terms, a status filter shows exactly the tasks of that status |
| Stopwatch.Elapsed | script.js:468 | `Math.floor((now - start) / 1000)` is the largest whole number of seconds not exceeding the interval, and is non-negative when the clock has not gone back |
| Stopwatch.Stopped | script.js:460-482 | `stopTimer` is a no-op unless this id's timer runs. Otherwise the timer stops and the id is cleared. If the task exists and the start time is truthy, exactly that task's duration grows by the elapsed seconds and the start time is cleared. Otherwise the tasks and the start time stay as they were |
| Stopwatch.StopCommitsAt | script.js:466-470 | a committing stop changes only the duration of the task found, which is still found at the same position |
| Stopwatch.Started | script.js:426-454 | `startTimer` never changes the tasks. A running timer is cancelled without commit. For a missing id nothing else happens. For an existing id the id and `now` are recorded, and the interval runs only if no timer was running before: otherwise the re-render removed the start button and the handler fails at `script.js:445` |
| Stopwatch.StartedWhileRunning | script.js:428-449 | starting while another timer runs leaves the id and start time recorded but no interval; a later `stopTimer` for the id changes nothing, while the intended start would be running |
| Stopwatch.StartedAsIntended | script.js:426-454 | the start the comments describe: for an existing id the interval runs for it from `now`; for a missing id a running timer is cancelled |
| Stopwatch.StartedAsIntendedKeepsIdle | script.js:426-454 | the intended start keeps the stricter invariant that an interval runs exactly when an id is recorded |
| Stopwatch.StopKeepsConsistent | script.js:460-470 | after `stopTimer`, a running interval still has an id and a start time recorded |
| Stopwatch.StartKeepsConsistent | script.js:426-454 | after `startTimer`, a running interval has an id and a start time recorded |
| Stopwatch.StopTwice | script.js:461 | a second `stopTimer`, for any id at any later time, changes nothing |
| Stopwatch.StopNeverLosesTime | script.js:467-469 | when the clock has not gone back, stopping never decreases a duration |
| Stopwatch.StartDropsRunningTime | script.js:428-434 | starting any timer while another task's runs leaves that task's duration as it was, whereas stopping would have added the elapsed seconds |
| Stopwatch.StopAfterDelete | script.js:221-225 | after the running task is deleted, `stopTimer` for its id clears the interval and the id but keeps the old start time, and changes no task |
| Lifecycle.EditEntered | script.js:231-262 | `editTask` never changes the tasks. It cancels the timer, without committing, exactly when the task exists and another task's timer runs, whether or not the task's form is already open. Otherwise nothing changes |
| Lifecycle.EditEnteredAsIntended | script.js:246-262 | the guarded `editTask` the comments describe: for a task whose form is already open nothing changes; otherwise it acts as `editTask` |
| Lifecycle.SaveClickDropsOtherTime | script.js:241-262 | a Save click on one task while another task's timer runs ends with no timer running and that task's duration as it was, and a later `stopTimer` for it changes nothing |
| Lifecycle.SaveClickAsIntendedKeepsTimer | script.js:246-252 | with the guard working, a Save click keeps whatever timer runs for another task and leaves every other task as it was |
| Lifecycle.CancelsOtherTimer | script.js:255 | the timer test: the task exists and a timer runs for another task; no contract of its own, `Lifecycle.EditEntered` and `Tracker.TaskTracker.EditTask` state its effect |
| Lifecycle.Saved | script.js:391-419 | for an unknown id nothing changes. Otherwise only the first task with the id changes: its text and attachment are the trimmed inputs, its status the chosen one, its tags the parsed tag text and its duration the decoded duration. Its own running timer is stopped exactly as `stopTimer` stops it; any other timer state is kept |
| Lifecycle.Edited | script.js:411-415 | the written task keeps its id, completed flag and comments; its text and attachment are the trimmed inputs and its tags are normalised |
| Lifecycle.SaveAfterStop | script.js:395-414 | stopping first and then writing the form gives the same state as `Saved`: the decoded duration replaces whatever the stop added |
| Lifecycle.SaveUnchangedForm | script.js:391-419 | saving the form exactly as `editTask` fills it in changes nothing, when no timer runs for the task: the text, status, `tags.join(', ')`, `formatTime(duration)` and attachment of a saved task |
| Lifecycle.EditedUnchanged | script.js:411-415 | writing a saved task's own fields back into it, with its tags joined by ', ', gives the same task |
| Lifecycle.SaveWhileRunningUsesText | script.js:395-414 | saving while this task's timer runs stores the duration shown in the box and stops the timer |
| Tracker.TaskTracker.constructor | script.js:11-14 | page load: the stored tasks, no timer |
| Tracker.TaskTracker.AddTask | script.js:181-202 | the task array becomes `WithNewTask` of the old one; the timer globals are untouched |
| Tracker.TaskTracker.ToggleComplete | script.js:208-215 | the task array becomes `WithToggled` of the old one; the timer globals are untouched |
| Tracker.TaskTracker.DeleteTask | script.js:221-225 | the task array becomes `WithoutId` of the old one; the timer globals are untouched, even when they name this id |
| Tracker.TaskTracker.AddComment | script.js:511-521 | the task array becomes `WithComment` of the old one; the timer globals are untouched |
| Tracker.TaskTracker.StartTimer | script.js:426-454 | the handler's steps, with the failure after a re-render, end in `Started` of the old state, and a running interval keeps its id and start time |
| Tracker.TaskTracker.StopTimer | script.js:460-482 | the new state is `Stopped` of the old state, and the timer globals stay consistent |
| Tracker.TaskTracker.EditTask | script.js:231-366 | the new state is `EditEntered` of the old state, whether or not the form is open. The handler completes with its form on the page exactly when the task exists, its form was not open (otherwise the Edit button is not found, and relabelling it at `script.js:362` fails) and no other task's timer had to be cancelled (that re-render detaches the row) |
| Tracker.TaskTracker.SaveTask | script.js:391-419 | the handler's own order (stop the timer, decode, overwrite) ends in `Saved` of the old state |

## Findings

| source | as written | input that shows it | evidently intended | confidence | as-written member | corrected member |
|---|---|---|---|---|---|---|
| script.js:428-449 | when a timer is already running, `startTimer` re-renders the list, then reads `.style` of the row's start button, which the re-render removed; the handler fails before `setInterval` | edit task A, edit task B, start B's timer, then start A's timer: no interval runs, and A's stop button does nothing | the running timer is cancelled and A's timer starts | high for the failure, given the DOM behaviour of `renderTasks`; not executed | Stopwatch.StartedWhileRunning | Stopwatch.StartedAsIntendedKeepsIdle |
| script.js:241-252 | the already-editing guard looks the button up by `edit-btn`, which the open form has replaced by `save-btn` (`script.js:363-364`), so it never fires; the `removeEventListener` call at `script.js:365` removes nothing; the Edit listener is never removed, so a Save click runs `editTask` before `saveTask` and cancels another task's running timer without committing it | edit task A, edit task B, start B's timer, then click Save on A: B's timer stops and its elapsed time is lost | the Save click's `editTask` does nothing, and B's timer keeps running | high, given the DOM behaviour of `querySelector` and `removeEventListener`; not executed | Lifecycle.SaveClickDropsOtherTime | Lifecycle.SaveClickAsIntendedKeepsTimer |

The class `Tracker.TaskTracker` follows the handlers as written, so it uses `Stopwatch.Started` and `Lifecycle.EditEntered`; a Save click is `EditTask(id, true)` followed by `SaveTask`. `Lifecycle.EditEnteredAsIntended` is the corrected `editTask` prologue. `Stopwatch.StartedAsIntended` is the corrected transition, and `Stopwatch.StartedAsIntendedKeepsIdle` proves it keeps the stricter invariant that the as-written handler breaks.

## Left out

- Rendering is not modelled: the DOM, the buttons, the details and activities panels, `toggleDetails` and `toggleActivities`. Only the choice of tasks that `renderTasks` shows is modelled.
- Persistence is not modelled. `saveTasks` and `localStorage` have no effect here, and the stored tasks are the constructor's parameter.
- The `setInterval` tick of `startTimer` is not modelled. It only redraws the duration box; `Lifecycle.SaveWhileRunningUsesText` covers what reaches `saveTask` from that box.
- `Date.now()` and `new Date().toISOString()` are parameters (`now`, `newId`, `timestamp`). Nothing makes ids unique, so every look-up takes the first match.
- `applyFilters` and `clearFilters` are not modelled. They only copy the two filter inputs into `currentStatusFilter` and `currentTagFilter`, which are parameters of `Filter.Visible`.
- In `editTask`, the path where the row's `li` is missing is not modelled. Whether the row's form is already open is the boolean parameter `alreadyEditing`; it decides only whether the handler completes. Building the form is not modelled.
- Text.Lower: lower-cases ASCII letters only, not the full Unicode case mapping of `toLowerCase`.
- Duration.DecodeDuration, Duration.DecodeFields: a field that is not a non-empty string of digits does not decode. The model does not reproduce JavaScript's `Number` coercion of such fields: NaN, signs, decimals, white space, and '' read as 0.
- Lifecycle.Saved: requires the duration text to decode. The only caller passes the read-only box that `formatTime` fills. `Duration.DecodeFormatTime` shows that such text decodes for a non-negative duration. A negative duration, possible when the clock goes back, is not covered.
- Tracker.TaskTracker.SaveTask: requires the duration text to decode, for the same reason as `Lifecycle.Saved`.
- Duration.FormatTime: is defined for non-negative totals only. A task whose duration became negative shows text like `-1:-1:-5` in the source. The decoder rejects such text, so saving that task is outside `Lifecycle.Saved`.
- Stopwatch.Started: assumes the clicked task's row is on the page after the re-render. It is, because the click came from that row. Since that row was drawn, the tasks and the filters have changed only through handlers that re-render, except `stopTimer` (`script.js:460-482`). That handler changes only a task's `duration`, and the filter predicate (`script.js:49-57`) does not read it. A row hidden by the filter would let the interval start.
- Numbers are unbounded integers and durations are whole seconds. The model does not capture double-precision rounding, fractional durations, or `Math.floor(totalSeconds % 60)` on non-integers.
- A task's status is one of three values. The source stores the selector's string, which always holds one of these values.
