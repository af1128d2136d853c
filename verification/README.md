# Timer lifecycle model

This project models the core of a browser timer application in Dafny. Users create named countdown timers in categories and start, pause, reset and delete them, one at a time or a whole category at once. A once-per-second tick counts the running timers down. It raises a halfway alert when a timer reaches half its duration, if the timer asked for one. When a timer finishes, the tick completes it and records an entry in a completion history.

The model has five parts:

- `Types` (types.dfy): the timer and history records, the four-valued status, and the creation payload.
- `Store` (store.dfy): the timer store. Every store operation is a pure function from one store state (timers, history, category collection) to the next. `StoreLemmas` (store_lemmas.dfy) proves three kinds of property:
  - the store invariant is kept;
  - the category-wide commands agree with the single-timer commands;
  - an export read back by the loader gives the same timers and history.
- `Scheduler` (tick.dfy): the body of the interval callback, as a fold over the pre-tick snapshot.
  - Each update is merged into the accumulated state, as React's functional updaters are.
  - The completion's lookup reads the snapshot, as the render's `completeTimer` closure does.
  - The toasts and browser notifications become a sequence of logical events.
  - `SchedulerLemmas` (tick_lemmas.dfy) proves the fold equal to an independent per-timer step (`Step`) when ids are unique, and derives the tick's properties from that.
  - `RunLemmas` (run_lemmas.dfy) follows one timer through all of its ticks.
- `TimeFormat`, `TimerList` and `TimerForm` (time_format.dfy, timer_list.dfy, timer_form.dfy): the derived views of the list and the form's payload.
  - The views are `formatTime`, the category filter, the groups and their counts, the expanded-set toggle, and control visibility.
  - The form payload covers minutes to seconds, the `'new'` category sentinel, and the field reset.

Timestamps (`Date.now()`), fresh ids (`crypto.randomUUID()`), the export date and the parsed minutes are parameters.

The model follows the code as written, including these behaviours:

- `startTimer` sets a completed timer running again.
- `completeTimer` has no guard, so completing twice appends two history entries.
- `resetTimer` keeps `completedAt`.
- The tick overwrites `halfwayAlertTriggered` instead of OR-ing into it. A timer that has passed its halfway point therefore alerts on every second tick until it completes.
- A ten-minute timer raises its first halfway alert on tick 301, not 300. On tick 300 the pre-decrement remaining time is 301, which is above 300.
- `formatTime` of a negative number yields text such as `-1:-5` for -5 and `-2:-5` for -65. The seconds keep the sign of the input, and a two-character `-5` is not padded. The model reproduces this with a sign-of-dividend remainder.

## Model

| member | source | states |
|---|---|---|
| Types.ParseStatus | src/types.ts:6 | exactly the four literal names of the status union (`idle`, `running`, `paused`, `completed`) denote a status; the application itself does not validate stored strings |
| Types.StatusNamesRoundTrip | src/types.ts:6 | the status has exactly four values, their names are distinct, and each name reads back as its status |
| Store.Apply | src/hooks/useTimers.ts:52 | the object spread `{ ...timer, ...updates }`: every field the patch sets overwrites the timer's, every other field is kept (no contract of its own; `Store.UpdateTimer` states it per position) |
| Store.AddCategory | src/hooks/useTimers.ts:47 | the collection gains the category only if it was absent, keeps its earlier order, and stays free of duplicates |
| Store.Load | src/hooks/useTimers.ts:9-26 | loaded timers and history are the saved ones, or empty when nothing was saved; the categories have no duplicates and are exactly the loaded timers' categories |
| Store.Find | src/hooks/useTimers.ts:57 | the lookup finds nothing exactly when no timer has the id; otherwise it returns the first timer with that id |
| Store.AddTimer | src/hooks/useTimers.ts:36-48 | exactly one timer is appended; it has the fresh id, the creation time, the payload's fields, status idle, remaining time equal to its duration and a clear flag; earlier timers and the history are unchanged; the category is added if absent |
| Store.UpdateTimer | src/hooks/useTimers.ts:50-54 | the patch is merged into exactly the timers with that id; every other timer, the length, the order, the history and the categories stay as they were |
| Store.CompleteTimer | src/hooks/useTimers.ts:56-70 | an unknown id changes nothing; otherwise exactly one entry is appended, copying the first timer with that id, and the matching timers become completed with no time left and the completion time |
| Store.DeleteTimer | src/hooks/useTimers.ts:72-74 | exactly the timers with that id are removed; history and categories are untouched |
| Store.StartTimer | src/hooks/useTimers.ts:76-78 | the matching timers become running whatever their status, completed included; nothing else changes |
| Store.PauseTimer | src/hooks/useTimers.ts:80-82 | the matching timers become paused whatever their status; nothing else changes |
| Store.ResetTimer | src/hooks/useTimers.ts:84-93 | an unknown id changes nothing; otherwise the matching timers become idle, take the found timer's duration as their remaining time, and have the flag cleared; `completedAt` is kept |
| Store.StartCategoryTimers | src/hooks/useTimers.ts:95-101 | exactly the timers of the category that are not completed become running; every other timer is identical |
| Store.PauseCategoryTimers | src/hooks/useTimers.ts:103-109 | exactly the running timers of the category become paused; every other timer is identical |
| Store.ResetCategoryTimers | src/hooks/useTimers.ts:111-117 | every timer of the category, whatever its status, is reset to its own duration with the flag cleared; every other timer is identical |
| Store.ExportData | src/hooks/useTimers.ts:119-124 | the exported record holds the store's timers, its history and the export date (no contract of its own; `StoreLemmas.ExportLoadRoundTrip` states its round trip) |
| StoreLemmas.RemoveIdKeepsOrder | src/hooks/useTimers.ts:73 | deleting distributes over concatenation, so the remaining timers keep their relative order |
| StoreLemmas.AddPreservesValid | src/hooks/useTimers.ts:36-48 | adding a timer with a fresh id and a non-negative duration keeps the range, id-uniqueness, no-duplicate-category and category-cover invariant |
| StoreLemmas.DeletePreservesValid | src/hooks/useTimers.ts:72-74 | deleting keeps the invariant; no category is removed |
| StoreLemmas.StartPausePreserveValid | src/hooks/useTimers.ts:76-82 | start and pause keep the invariant |
| StoreLemmas.ResetPreservesValid | src/hooks/useTimers.ts:84-93 | reset keeps the invariant |
| StoreLemmas.CompletePreservesValid | src/hooks/useTimers.ts:56-70 | complete keeps the invariant |
| StoreLemmas.BulkPreservesValid | src/hooks/useTimers.ts:95-117 | the three category-wide commands keep the invariant |
| StoreLemmas.ResetRestoresDuration | src/hooks/useTimers.ts:84-93 | with unique ids a reset timer is idle, has its own full duration left, has a clear flag, and keeps `completedAt` |
| StoreLemmas.CompleteTwiceAppendsTwice | src/hooks/useTimers.ts:56-70 | completing the same timer twice appends two history entries |
| StoreLemmas.StartCategoryMatchesStart | src/hooks/useTimers.ts:95-101 | the category-wide start acts on each selected timer as a single start by its id does, and leaves the rest alone |
| StoreLemmas.PauseCategoryMatchesPause | src/hooks/useTimers.ts:103-109 | the category-wide pause acts on each selected timer as a single pause by its id does, and leaves the rest alone |
| StoreLemmas.ResetCategoryMatchesReset | src/hooks/useTimers.ts:111-117 | the category-wide reset acts on each timer of the category as a single reset by its id does, and leaves the rest alone |
| StoreLemmas.BulkChangesExactly | src/hooks/useTimers.ts:95-117 | which timers' records actually differ after each category-wide command: idle or paused ones for start, running ones for pause, and every timer not already fully reset for reset, all within the category |
| StoreLemmas.ExportLoadRoundTrip | src/hooks/useTimers.ts:119-124 | loading the exported timers and history gives them back unchanged, with categories covering every timer and none the store did not list |
| Scheduler.TickOne | src/App.tsx:36-66 | the callback for one snapshot timer: guard, decrement with the flag overwrite, halfway alert, completion through the snapshot lookup (no contract of its own; `SchedulerLemmas.TickOneShape` states its effect at a position) |
| Scheduler.Tick | src/App.tsx:35-67 | the interval callback: `TickOne` folded over the pre-tick snapshot in list order (no contract of its own; the `SchedulerLemmas` rows below state its properties) |
| SchedulerLemmas.TickIsPointwise | src/App.tsx:35-67 | with unique ids, the fold over the snapshot equals the per-timer step at every position; the history gains the completing timers' entries in list order; the events are each timer's events in list order |
| SchedulerLemmas.TickFrame | src/App.tsx:35-67 | whatever the ids, a tick keeps the list length and every timer's identity fields and the categories, and only appends to the history |
| SchedulerLemmas.TickAt | src/App.tsx:36-43 | only running timers with time left change; each loses exactly one second and stays non-negative; its flag becomes the pre-decrement halfway condition; it completes exactly when its pre-decrement time is at most 1 |
| SchedulerLemmas.SnapshotIndependence | src/App.tsx:35 | a timer's outcome depends only on its own pre-tick record, not on the other timers' records |
| SchedulerLemmas.TickEvents | src/App.tsx:46-65 | a halfway alert is raised for a timer exactly when it ticks and the pre-decrement halfway condition holds; a completion notice exactly when it ticks with at most one second left |
| SchedulerLemmas.TickHistory | src/App.tsx:58-59 | a tick keeps the earlier history and appends the completing timers' entries, copied from their pre-tick records in list order; the number appended equals the number of timers running with a pre-decrement time in (0, 1]; an entry is appended exactly when it belongs to such a timer |
| SchedulerLemmas.TickPreservesValid | src/App.tsx:35-67 | a tick keeps the store invariant |
| SchedulerLemmas.TickWithNothingRunning | src/App.tsx:36 | when no timer is running with time left, a tick changes nothing and raises nothing |
| SchedulerLemmas.HalfwayAndCompletionTogether | src/App.tsx:46-65 | a two-second timer on its second tick raises the halfway alert and the completion notice in the same tick |
| SchedulerLemmas.HalfwayRefires | src/App.tsx:39-42 | the flag is overwritten: the tick after an alert clears the flag without alerting, and the tick after that alerts again |
| RunLemmas.RunSingleTimer | src/App.tsx:35-67 | a timer running from its full duration d has d - k seconds left after k ticks, completes on tick d with one history entry and one notice, and has raised the closed-form count of halfway alerts |
| RunLemmas.TenMinuteHalfway | src/App.tsx:46-50 | a ten-minute timer has raised no halfway alert after 300 ticks and exactly one after 301 |
| RunLemmas.FiveSecondCompletion | src/App.tsx:58-59 | a five-second timer is completed with no time left after five ticks, with one history entry and one notice |
| TimeFormat.TruncRem | src/components/TimerList.tsx:44 | the remainder takes the sign of the dividend, is smaller than the divisor in magnitude, and differs from the dividend by a multiple of the divisor, which fixes its value |
| TimeFormat.FormatTime | src/components/TimerList.tsx:42-46 | floored minutes, a colon, and the sign-of-dividend remainder padded to two characters (no contract of its own; `TimeFormat.FormatTimeRoundTrip` and `TimeFormat.FormatTimeNegative` state its results) |
| TimeFormat.FormatTimeNegative | src/components/TimerList.tsx:42-46 | -5 seconds format as `-1:-5` and -65 as `-2:-5`: floored minutes, signed seconds, no padding of a two-character `-5` |
| TimeFormat.NatToStringRoundTrip | src/components/TimerList.tsx:45 | the decimal text of a natural number reads back as that number |
| TimeFormat.FormatTimeRoundTrip | src/components/TimerList.tsx:42-46 | for non-negative seconds the text is the minutes, a colon and exactly two seconds digits, and reading it back gives the seconds |
| TimerList.OfCategoryAppend | src/components/TimerList.tsx:50 | filtering distributes over concatenation, so the kept timers keep their order |
| TimerList.FilteredTimers | src/components/TimerList.tsx:48-50 | the "all" selection keeps the list unchanged; any other selection keeps exactly the timers of that category |
| TimerList.GroupedTimers | src/components/TimerList.tsx:52-55 | there is a group exactly for each listed category |
| TimerList.GroupContents | src/components/TimerList.tsx:52-55 | a listed category's group is that category's timers in list order when the filter lets it through, and empty otherwise |
| TimerList.UnlistedInNoGroup | src/components/TimerList.tsx:52-55 | a timer whose category is not listed is in no group |
| TimerList.CompletedCount | src/components/TimerList.tsx:78 | a single timer counts 1 exactly when completed; the count is at most the total, equals it exactly when all are completed, and is zero exactly when none are |
| TimerList.CompletedCountAppend | src/components/TimerList.tsx:78 | the count of a concatenation is the sum of the counts, so with the one-timer case the count is the number of completed timers |
| TimerList.Sections | src/components/TimerList.tsx:74-80 | every rendered section is a listed category with a non-empty group; its timers are that group, its total is the group's size, and its completed figure is the group's completed count, at most the total |
| TimerList.SectionsCover | src/components/TimerList.tsx:74-76 | every listed category with a non-empty group is rendered |
| TimerList.Progress | src/components/TimerList.tsx:80 | progress times the total equals 100 times the completed count; it lies in [0, 100], is 0 exactly when none are completed, and is 100 exactly when all are |
| TimerList.ToggleCategory | src/components/TimerList.tsx:32-40 | toggling flips membership of the given category and of no other |
| TimerList.ToggleTwice | src/components/TimerList.tsx:32-40 | toggling twice restores the original set |
| TimerList.ControlsFor | src/components/TimerList.tsx:175-206 | which of start, pause and reset are shown for a status (no contract of its own; `TimerList.ControlsByStatus` states the table) |
| TimerList.ControlsByStatus | src/components/TimerList.tsx:175-206 | completed shows no controls; running shows pause and reset; idle and paused show start and reset |
| TimerList.ControlsMatchBulkCommands | src/components/TimerList.tsx:175-196 | the start control shows exactly for the timers a category-wide start would change, and the pause control exactly for those a category-wide pause would change |
| TimerForm.Submit | src/components/TimerForm.tsx:19-35 | the payload's duration is minutes times 60; its category is the new-category text when the sentinel is selected and the selection otherwise; name and alert pass through; no completion time; every field returns to its initial value |
| TimerForm.CategoryNamedNewIsShadowed | src/components/TimerForm.tsx:21 | whenever the selection is `new`, the submitted category is the new-category text, so an existing category literally named "new" cannot be chosen as it is |
| TimerForm.MinutesSurviveToHistory | src/components/TimerHistory.tsx:44 | a submitted timer, added and completed, yields one history entry that has the entered name and displays the entered minutes |

## Left out

- React state and effects are not modelled: `useState`, `useEffect`, render closures, and the interval being re-created whenever the timers change. One tick is a pure function of the pre-tick store.
- `setInterval` timing, the `Notification` permission request and construction, toasts, and the completion modal (`setCompletedTimer`) are not modelled. They appear only as the `HalfwayAlert` and `CompletionNotice` events.
- `localStorage` reads and writes, `JSON.parse` and `JSON.stringify`, and the export's Blob, object-URL and DOM download steps are not modelled. `Load` takes already-parsed values, so malformed stored JSON, which throws in the application, is outside the model.
- `crypto.randomUUID()`, `Date.now()` and `new Date().toISOString()` are parameters. The two `Date.now()` calls in `completeTimer` take the same value.
- `parseInt` is not modelled. `TimerForm.Submit` takes the parsed minutes as an integer, so a non-numeric entry, which gives NaN in the application, is outside the model.
- Numbers: durations and remaining times are JavaScript doubles, and the model uses unbounded `int`. The two agree only below 2^53. Above that, the tick's `remainingTime - 1` can round back to the same value, so a timer with a duration such as 2^53 + 28 seconds never counts down. The form allows such a duration, since its minutes box has no maximum. `SchedulerLemmas.TickAt` and `RunLemmas.RunSingleTimer` state the exact one-second decrement of the integer model. From 1e21 on, `formatTime` prints the minutes in exponent notation, while `TimeFormat.NatToString` always prints plain digits.
- Floating-point widths of the per-timer progress bars are left out. The category progress is stated over reals.
- The theme, tooltips, CSS classes and the history view's `toLocaleString` date text are not modelled.
- The expanded-category set is initialised once from the category list (src/components/TimerList.tsx:29). Only its toggle is modelled.
- Store.Patch cannot express an explicit `undefined` field, which would clear `completedAt` in a spread. No caller in the application passes one.
- Store.Load: the contract states the categories' membership and distinctness, but not their first-occurrence order.
- TimerList.Sections: the contract does not state that the sections follow the order of the category list.
- StoreLemmas.AddPreservesValid: requires a fresh id and a non-negative duration. Ids come from `crypto.randomUUID()`. A negative parsed duration would break the range invariant the lemma states.
- SchedulerLemmas.TickAt: requires unique ids, as do the other per-position tick lemmas. `SchedulerLemmas.TickFrame` holds without it. With duplicate ids, the fold `Scheduler.Tick` still models the code as written.
- Scheduler.Tick: every completion in one tick takes the same timestamp `now`. In the application each `completeTimer` call reads `Date.now()` again, so two timers completing in the same tick may get `completedAt` values a few milliseconds apart.
- RunLemmas.RunSingleTimer: all ticks of a run share one timestamp. Each tick's timestamp only affects the `completedAt` of the completing tick.
- TimeFormat.FormatTimeRoundTrip: holds for non-negative seconds only. Negative input is formatted as the code formats it, but it has no round trip.
