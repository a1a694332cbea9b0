# Productivity Scheduler: a verified model of its core

The Productivity Scheduler plans revision sessions before an exam, using spaced repetition.
Given an exam day, a start day, a difficulty, a memory strength and tuning options, it
steps forward along an exponential forgetting curve and produces the days on which to
revise. It then keeps a list of saved schedules, in which:
- the user ticks revision days off,
- edits or deletes a schedule,
- and sees the schedules grouped by subject.

This project models that core in Dafny and proves properties of the model. It has five
modules:

- `Wrappers` (`wrappers.dfy`): `Option`.
- `Seqs` (`seqs.dfy`): the de-duplication a JavaScript `Set` performs, keeping first
  occurrences in order, and the ascending sort. Each comes with lemmas on the elements
  kept, distinctness, sortedness and permutation.
- `Revision` (`revision.dfy`): the revision-date generator `getRevisionDates`.
  - Calendar days are integer day numbers.
  - The forgetting-curve interval is `max(1, ceil(S * k))`. Here `k = -ln(targetRetention)`
    is a real option (`retentionCoefficient`), because the logarithm is not computed.
  - `RevisionDates` is the specification. It is built on `Steps`, a recursive account of
    what the stepping loop appends.
  - `GetRevisionDates` is the imperative algorithm: the `while (true)` loop, then
    de-duplication, sorting and the single-date fix-up. It is proved to compute exactly
    `RevisionDates`.
  - Lemmas then state the things the generator promises:
    - the validation error;
    - strictly ascending days within range;
    - the iteration cap;
    - the ending on the last revisable day;
    - the gaps between days widening after each review;
    - the single-day case;
    - the effect of difficulty and retention on the number of days;
    - a worked default example.
- `IsoDate` (`iso_date.dfy`): `dateStringToISO`. It splits on single spaces as
  `String.prototype.split(' ')` does, with a split/join round trip proved. It looks the
  month name up in the month table, pads the day with `padStart`, and prints missing
  values as `undefined`.
- `SavedSchedules` (`saved_schedules.dfy`): the saved-schedule updates.
  - Ticking a day off, for the schedule being computed and for a saved one.
  - Deleting a schedule, by id.
  - Confirming an edit.
  - The subject grouping. This is a `reduce` that mutates an accumulator object, followed
    by `Object.entries`, modelled as two methods with loops.

In the code the interval is `-S * ln(targetRetention)`, which grows as the target retention
falls. So a lower target retention gives longer intervals and no more revision dates, and a
higher one (the UI's "Session Density" slider, 0.3 to 0.9) gives more. `RetentionOrdering`
proves this: a larger coefficient `k`, which means a lower target retention, gives no more
dates.

## Model

| member | source | states |
|---|---|---|
| Seqs.Dedup | src/ProductivityScheduler.jsx:34 | No ensures of its own: the elements in order of first occurrence, each once; DedupShape states its properties |
| Seqs.DedupShape | src/ProductivityScheduler.jsx:34 | De-duplication keeps exactly the input's elements, each once, and leaves a sequence of distinct elements unchanged |
| Seqs.InsertSorted | src/ProductivityScheduler.jsx:35 | Inserting into an ascending sequence keeps it ascending |
| Seqs.InsertMultiset | src/ProductivityScheduler.jsx:35 | Inserting adds exactly one occurrence of the element |
| Seqs.Sort | src/ProductivityScheduler.jsx:35 | No ensures of its own: the ascending insertion sort; SortShape and SortSorted state its properties |
| Seqs.SortShape | src/ProductivityScheduler.jsx:35 | The ascending sort returns an ascending permutation of its input |
| Seqs.SortSorted | src/ProductivityScheduler.jsx:35 | Sorting an already ascending sequence leaves it unchanged |
| Revision.DefaultOptions | src/ProductivityScheduler.jsx:4 | No ensures of its own: the options a caller gets by passing none (boost 1.8, base strength 4 days, cap 200 iterations), given the coefficient for the default target retention 0.6; DefaultScenario uses them |
| Revision.DifficultyScale | src/ProductivityScheduler.jsx:5-15 | The difficulty multiplier is positive, and it is 1 for every label other than easy and hard |
| Revision.InitialStrength | src/ProductivityScheduler.jsx:15 | No ensures of its own: max(0.1, memory strength) times base strength times the difficulty multiplier; InitialStrengthSign states its sign |
| Revision.InitialStrengthSign | src/ProductivityScheduler.jsx:15 | Thanks to the clamp at 0.1, the initial strength is positive exactly when the base strength is, for any memory strength and label |
| Revision.Interval | src/ProductivityScheduler.jsx:23 | No ensures of its own: max(1, ceil(p)); IntervalBounds pins it down and IntervalMonotone orders it |
| Revision.IntervalBounds | src/ProductivityScheduler.jsx:23 | An interval is at least one day, is not below the unrounded interval, and exceeds it by less than a day unless it is the one-day floor |
| Revision.IntervalMonotone | src/ProductivityScheduler.jsx:23 | A longer unrounded interval never gives a shorter step |
| Revision.Steps | src/ProductivityScheduler.jsx:19-33 | No ensures of its own: the days the loop appends, with the cap, the cut-short final step and the boost; the Steps lemmas below state its properties |
| Revision.StepsLength | src/ProductivityScheduler.jsx:19-22 | The loop appends at most one day per allowed iteration |
| Revision.StepsAscending | src/ProductivityScheduler.jsx:23-32 | Appended days strictly increase from the current day, and none is after the last revisable day |
| Revision.StepsEmpty | src/ProductivityScheduler.jsx:19-29 | The loop appends nothing exactly when it has no iterations or starts on the last revisable day |
| Revision.StepsEndOrFull | src/ProductivityScheduler.jsx:20-29 | The last appended day is the last revisable day unless every iteration accepted a step |
| Revision.CleanupKeepsLoopOutput | src/ProductivityScheduler.jsx:34-35 | De-duplication and sorting leave a strictly ascending list unchanged |
| Revision.FixUp | src/ProductivityScheduler.jsx:36 | No ensures of its own: a lone day other than the last revisable day gets that day appended; CleanedLoopDates states what it does to the loop's output |
| Revision.StartDay | src/ProductivityScheduler.jsx:12 | No ensures of its own: the given start day, or today when none is given; RevisionDates and every schedule lemma state their facts about it |
| Revision.RevisionDates | src/ProductivityScheduler.jsx:14 | The result is the validation error, with its message, exactly when the start day is after the day before the exam |
| Revision.FirstIntervalSign | src/ProductivityScheduler.jsx:15-23 | With a non-negative base strength, the first unrounded interval has the sign of k |
| Revision.CleanedLoopDates | src/ProductivityScheduler.jsx:34-36 | After clean-up and fix-up, the loop's output is unchanged, except that a lone start day gets the last revisable day appended when they differ |
| Revision.ScheduleIsLoopOutput | src/ProductivityScheduler.jsx:16-37 | A valid request's schedule is the start day followed by the loop's steps, with the lone-day fix-up |
| Revision.ScheduleAscendingInRange | src/ProductivityScheduler.jsx:16-36 | A valid schedule is non-empty, starts on the start day, strictly ascends, and lies between the start day and the day before the exam |
| Revision.GetRevisionDates | src/ProductivityScheduler.jsx:3-38 | The loop-based algorithm returns exactly the specified schedule or error |
| Revision.ScheduleLength | src/ProductivityScheduler.jsx:19-22 | A schedule has at most one day more than max(1, maxIterations) |
| Revision.ScheduleEndsOnLastDay | src/ProductivityScheduler.jsx:20-28 | A schedule ends on the day before the exam unless the iteration cap cut it off after maxIterations accepted steps |
| Revision.SingleDayRunway | src/ProductivityScheduler.jsx:27-36 | Starting on the day before the exam gives exactly that one day |
| Revision.UnitSteps | src/ProductivityScheduler.jsx:23-32 | With no unrounded interval above zero, the loop appends consecutive days up to the cap or the last revisable day |
| Revision.CapStopsShort | src/ProductivityScheduler.jsx:19-22 | With one-day steps (k ≤ 0, non-negative base strength and boost) and fewer iterations than days of runway, the schedule is the start day and the next maxIterations days, without error |
| Revision.StepsAntitone | src/ProductivityScheduler.jsx:23-32 | A later start and a longer interval never append more days |
| Revision.StepsWiden | src/ProductivityScheduler.jsx:23-32 | With a non-negative unrounded interval and a boost of at least 1, each gap between successive days is no shorter than the one before, except a final step onto the last revisable day |
| Revision.LongerIntervalsFewerDates | src/ProductivityScheduler.jsx:15-23 | Of two requests sharing days, boost and cap, the one with the longer first interval gets no more dates |
| Revision.DifficultyOrdering | src/ProductivityScheduler.jsx:5 | For non-negative base strength, k and boost, easy gets no more dates than medium, and medium no more than hard |
| Revision.RetentionOrdering | src/ProductivityScheduler.jsx:23 | A lower target retention (a larger k) gives no more dates |
| Revision.ScheduleGapsWiden | src/ProductivityScheduler.jsx:15-36 | For non-negative base strength and k and a boost of at least 1, a schedule's gaps never shrink, except for the step onto the day before the exam |
| Revision.DefaultScenario | src/ProductivityScheduler.jsx:4 | Default options, medium, strength 3, 18 days before the exam: revisions on days 0, 7 and 17 |
| IsoDate.Split | src/ProductivityScheduler.jsx:47 | Splitting always yields at least one piece |
| IsoDate.JoinSplit | src/ProductivityScheduler.jsx:47 | Joining the pieces with spaces gives back the input |
| IsoDate.SplitSpaceFree | src/ProductivityScheduler.jsx:47 | No piece holds a space |
| IsoDate.SplitJoin | src/ProductivityScheduler.jsx:47 | Splitting the space-join of space-free pieces gives back the pieces |
| IsoDate.MonthCode | src/ProductivityScheduler.jsx:53 | No ensures of its own: `months[monthStr]`, where a missing piece and a name outside the table both give nothing (`undefined`); MonthNumbers, MonthNamesOnly and UnknownMonth state its values |
| IsoDate.MonthNumbers | src/ProductivityScheduler.jsx:52 | The i-th month name maps to the two-digit number i, counting from 1 |
| IsoDate.MonthNamesOnly | src/ProductivityScheduler.jsx:52-53 | The table knows the twelve month names and nothing else |
| IsoDate.MonthNamesSpaceFree | src/ProductivityScheduler.jsx:52 | No month name holds a space |
| IsoDate.PadStart | src/ProductivityScheduler.jsx:54 | The result has length max(len, width), ends with the input, and is filled in front with the fill character ('0' at line 54) |
| IsoDate.DateStringToISO | src/ProductivityScheduler.jsx:45-56 | No ensures of its own: the year, month code and padded day of the split string, joined by dashes; ISOOfFields, ISOOfDateString, UnknownMonth and MissingFields state what it returns |
| IsoDate.ISOOfFields | src/ProductivityScheduler.jsx:46-55 | For space-separated pieces with a known month name, the result is year-MM-DD with the day padded to two characters; later pieces are ignored |
| IsoDate.ISOOfDateString | src/ProductivityScheduler.jsx:45-56 | "Www Mmm DD YYYY" becomes "YYYY-MM-DD" |
| IsoDate.UnknownMonth | src/ProductivityScheduler.jsx:53-55 | An unknown month name prints as "undefined" in the month's place |
| IsoDate.MissingFields | src/ProductivityScheduler.jsx:48-55 | With fewer than four pieces the year prints as "undefined", and so does a missing day |
| SavedSchedules.Toggle | src/ProductivityScheduler.jsx:101 | Toggling flips exactly one day's flag, counting a missing entry as false, and adds only that key |
| SavedSchedules.ToggleTwice | src/ProductivityScheduler.jsx:101 | Toggling the same day twice restores every flag, and restores the map itself when the day had an entry |
| SavedSchedules.Selects | src/ProductivityScheduler.jsx:102 | No ensures of its own: the truthiness test on the source id, false for a missing id and for the empty string alike; ToggleSaved and ToggleCompleted state their results in terms of it |
| SavedSchedules.ToggleSaved | src/ProductivityScheduler.jsx:102-112 | Only the schedule with the named (non-empty) id changes, and only in its completion flags, which are toggled at that day |
| SavedSchedules.ToggleCompleted | src/ProductivityScheduler.jsx:100-114 | The current flags flip at the day, and without a source id the saved list is untouched |
| SavedSchedules.ToggleSavedTwice | src/ProductivityScheduler.jsx:100-114 | Ticking the same day of the same schedule twice restores every schedule's flags and leaves its other fields as they were |
| SavedSchedules.DeleteSchedule | src/ProductivityScheduler.jsx:199-201 | A schedule survives deletion exactly when it was saved and its id differs |
| SavedSchedules.DeleteAbsent | src/ProductivityScheduler.jsx:200 | Deleting an id nobody has changes nothing |
| SavedSchedules.DeleteAppend | src/ProductivityScheduler.jsx:200 | Survivors keep their order |
| SavedSchedules.DeleteIdempotent | src/ProductivityScheduler.jsx:200 | Deleting twice is deleting once |
| SavedSchedules.ConfirmEdit | src/ProductivityScheduler.jsx:204-206 | Length is preserved, and with no computed dates nothing changes |
| SavedSchedules.Edited | src/ProductivityScheduler.jsx:208-216 | No ensures of its own: the schedule with the form's exam date, start date, difficulty and memory strength and the new dates and flags; ConfirmEditAt states what changes and what stays |
| SavedSchedules.ConfirmEditAt | src/ProductivityScheduler.jsx:205-218 | The edited schedule takes the form's fields, dates and flags; the others are unchanged; id, subject and topic never change |
| SavedSchedules.ConfirmEditIdempotent | src/ProductivityScheduler.jsx:205-218 | Confirming the same edit twice is confirming it once |
| SavedSchedules.Subjects | src/ProductivityScheduler.jsx:313 | The subjects, index by index |
| SavedSchedules.OfSubjectMembers | src/ProductivityScheduler.jsx:313-314 | A group holds exactly the schedules of its subject |
| SavedSchedules.GroupStep | src/ProductivityScheduler.jsx:313-315 | One reduce step keeps the grouping object equal to the distinct subjects so far, each holding its schedules |
| SavedSchedules.GroupBySubject | src/ProductivityScheduler.jsx:312-316 | The reduce builds keys in first-appearance order, each holding exactly its subject's schedules in list order |
| SavedSchedules.Entries | src/ProductivityScheduler.jsx:311 | The entries list each key with its value, in key order |
| SavedSchedules.SubjectGroups | src/ProductivityScheduler.jsx:311-317 | One entry per distinct subject, in first-appearance order, paired with that subject's schedules |
| SavedSchedules.GroupKeys | src/ProductivityScheduler.jsx:311-317 | The group keys are distinct and are exactly the subjects that occur |
| SavedSchedules.GroupingCovers | src/ProductivityScheduler.jsx:313-314 | Every schedule is in its subject's group |
| SavedSchedules.GroupingPartitions | src/ProductivityScheduler.jsx:311-317 | The group sizes add up to the number of schedules |

## Left out

- JavaScript `Date` handling is not modelled; days are integer day numbers, and `today` is a parameter. This covers:
  - parsing `examDateISO` and `startDateISO` (an ISO date string parses as UTC midnight, then `setHours` moves to local midnight);
  - `setDate` overflow;
  - time zones and daylight saving;
  - the clock behind `new Date()`;
  - the `toDateString` keys the de-duplication and the day comparisons use.
- Floating point is not modelled.
  - Strength and intervals are exact reals.
  - `Math.log(targetRetention)` is replaced by the given coefficient `k = -ln(targetRetention)`. The default 0.6 is stood for by any `k` in (0.51, 0.52).
  - `Math.ceil` is the exact ceiling.
- `Number(memoryStrength)` coercion and NaN are not modelled: memory strength is a real. A difficulty key that is an `Object.prototype` member such as "constructor" is also not modelled; in the code it finds a function in `difficultyScale`. The model gives every label outside easy, medium and hard the multiplier 1.
- Revision.GetRevisionDates works on a `seq` rather than a mutable JavaScript array. The in-place `sort` is modelled by the value-level insertion sort `Seqs.Sort`, which gives the same result for numbers.
- IsoDate: strings are sequences of code points; `padStart` counts UTF-16 code units, so a day piece with a character outside the Basic Multilingual Plane is padded differently.
- IsoDate: `months[...]` of an `Object.prototype` member name (for instance "constructor") is a function in the code; the model treats every name outside the twelve months as absent.
- SavedSchedules.SubjectGroups: `Object.entries` lists integer-like keys (a subject such as "101") first, in ascending numeric order; the model lists every key in first-insertion order.
- SavedSchedules.GroupBySubject: for a subject named after an `Object.prototype` member ("constructor", "__proto__"), `acc[s.subject]` is already truthy and not an array, so `acc[s.subject].push` is not a function and the reduce throws a TypeError during rendering; the model treats every subject as a fresh key.
- SavedSchedules: a saved record without a `completed` object is treated like one with an empty object. For toggling, `s.completed || {}` makes the two the same.
- SavedSchedules: the memory strength is carried as text, or as the number 3 until the field is edited; the model keeps it as a string and does not interpret it.
- The model takes the formatted revision days of an edit (`schedule.map(formatDate)`) as the input `dates`. `formatDate` and `toDateString` are not part of this model.
- React rendering, hooks and `setState` are not modelled; the state updates are modelled as functions from the old list to the new one.
- `handleConfirm` is not modelled: it appends a record whose id includes `Date.now()`, a clock value.
- `handleEditSchedule` and `handleCancel` are not modelled, because they only copy values into form fields.
- localStorage persistence is not modelled.
- The Google OAuth redirect and calendar sync are not modelled; they are network I/O.
- `src/App.jsx` is not part of this model: it only loads a script and renders the component.
