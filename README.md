# Workout recurrence core, modelled in Dafny

This project models the core of a workout-tracking back end. Users author
**workout templates**: a named routine with exercises, a duration, a type,
muscle-group tags and a frequency. The back end expands the active templates
week by week into **workout instances**, which the user then marks as
completed. Around that core sit four more parts:

- the weekly and monthly **statistics** over completed instances;
- the **upcoming-workout suggestion** over the fetched `Workout` records;
- the **exercise** collection with its unique (userId, muscleGroup) index;
- the **progress-photo** handlers, which derive a storage object name from a
  download URL.

Modules, one per source file plus two shared ones:

| module | file | models |
|---|---|---|
| `Calendar` | calendar.dfy | local dates as day numbers plus milliseconds of the day, the proleptic Gregorian calendar, the ISO 8601 week number (ISO 8601:2004, section 4.1.4, week dates), Monday week starts, month starts |
| `Wrappers` | wrappers.dfy | `Option` and `Result` |
| `Exercises` | exercises.dfy | `src/models/Exercise.ts` |
| `Templates` | templates.dfy | `src/models/WorkoutTemplate.ts`, including ECMAScript `trim()` |
| `Instances` | instances.dfy | `src/models/WorkoutInstance.ts`: `markAsCompleted` on a document class, and `createWeekInstances` on a store class |
| `Stats` | stats.dfy | `src/controllers/statsController.ts` |
| `Suggestions` | suggestions.dfy | `suggestUpcoming` of `src/controllers/workoutController.ts`, including an in-place insertion sort on an array |
| `ProgressImages` | progress_images.dfy | `src/controllers/progressImageController.ts` (`create`, `delete`, file name from URL) |

Time is an `Instant`: a local day number (day 0 is 1970-01-01) and the
milliseconds since local midnight. `Millis` is the value that `getTime()`
compares. The clock (`new Date()`), the random day offset, the storage
bucket's failure and the new document id all become parameters.

Behaviour of the code worth knowing, which the model follows:

- An instance is keyed by the ISO week number together with the **calendar**
  year of the anchor date (`getFullYear()`), not the ISO week-numbering year.
  So 1 January 2024 and 30 December 2024 share the key (1, 2024)
  (`Instances.CalendarYearKeyCollides`).
- `markAsCompleted` does not refuse an instance that is already completed. A
  second completion overwrites the first (`Instances.RecompletionOverwrites`).
- The weekly statistics count completed instances dated on or after Monday
  00:00, with no upper bound. A completed instance whose template is gone
  still counts toward `totalWorkouts`.
- The suggestion reads the `Workout` collection, not the instances. It does
  not create instances. The `Workout` schema has no `userId` path, so the
  fetch `Workout.find({ userId })` is not restricted to the caller.
- `suggestDateForWorkout` adds 0..6 days to the anchor it is given, which is
  the request date, not the Monday. A suggested date can therefore fall into
  the next ISO week while staying keyed under the anchor's week
  (`Instances.SuggestedDateMayLeaveKeyedWeek`).
- No unique index exists on instances. Uniqueness per
  (userId, templateId, weekNumber, year) holds only for sequential calls, and
  only when template ids are distinct (`Instances.ExpansionKeepsKeysUnique`).

## Model

| member | source | states |
|---|---|---|
| `Calendar.Millis` | src/controllers/statsController.ts:19-23 | the `getTime()` value of an instant lies within its day's 86 400 000 ms |
| `Calendar.JsWeekday` | src/models/WorkoutInstance.ts:84 | `getDay()` lies in 0..6 and counts days from a Thursday (4) at day 0, modulo 7 |
| `Calendar.StartOfDay` | src/models/WorkoutInstance.ts:83 | midnight of the same day, never later than the instant |
| `Calendar.IsoWeekday` | src/models/WorkoutInstance.ts:84 | `getDay()`, with 0 read as 7, lies in 1..7 and agrees with `getDay()` modulo 7 (Sunday is 7) |
| `Calendar.MondayOf` | src/models/WorkoutInstance.ts:84 | the Monday of a day's week is a Monday at most six days earlier, and the ISO weekday is the distance from it plus one |
| `Calendar.WeekStartUnique` | src/controllers/statsController.ts:12-16 | there is exactly one Monday 00:00 that starts the week of an instant |
| `Calendar.YearLength` | src/models/WorkoutInstance.ts:85 | each proleptic Gregorian year is 366 days long when it is a leap year and 365 otherwise |
| `Calendar.YearOf` | src/models/WorkoutInstance.ts:85 | `getFullYear()`: the year whose 1 January is at or before the day and whose successor's 1 January is after it |
| `Calendar.YearOfUnique` | src/models/WorkoutInstance.ts:85 | a calendar year is fixed by any day it contains |
| `Calendar.ThursdayOf` | src/models/WorkoutInstance.ts:84 | `d.getDate() + 4 - (d.getDay() \|\| 7)` is the Thursday of the date's Monday-to-Sunday week |
| `Calendar.Ceil7` | src/models/WorkoutInstance.ts:86-88 | `Math.ceil(a / 7)`: the least r with a <= 7r |
| `Calendar.CalendarYear` | src/models/WorkoutInstance.ts:113 | `getFullYear()`: the year whose 1 January is at or before the instant's day and whose successor's 1 January is after it |
| `Calendar.WeekNumber` | src/models/WorkoutInstance.ts:81-90 | `getWeekNumber` always lies in 1..53, for years outside 0..99 (see Left out) |
| `Calendar.WeekNumberIn` | src/models/WorkoutInstance.ts:84-88 | the week number counts weeks from 1 January of the year of the week's Thursday, which is the ISO week-numbering year |
| `Calendar.WeekNumberIsoRule` | src/models/WorkoutInstance.ts:81-90 | week 1 is the week containing 4 January of the ISO year, and the week number is one more than the whole weeks from that week's Monday to the date's Monday |
| `Calendar.TimeOfDayIrrelevant` | src/models/WorkoutInstance.ts:83 | the week number and ISO year depend only on the date, not on the time of day |
| `Calendar.WeekConstancy` | src/models/WorkoutInstance.ts:84 | Monday through the following Sunday share one week number and one ISO year |
| `Calendar.IsoKeyIdentifiesWeek` | src/models/WorkoutInstance.ts:81-90 | equal week number and equal ISO year mean the same Monday-to-Sunday week |
| `Calendar.IsoYearNearCalendarYear` | src/models/WorkoutInstance.ts:84-85 | the ISO year is the calendar year, the one before, or the one after |
| `Calendar.WeekOfDecember30th2024` | src/models/WorkoutInstance.ts:81-90 | 30 December 2024 is in week 1, with calendar year 2024 and ISO year 2025 |
| `Calendar.MonthOf` | src/controllers/statsController.ts:64-68 | `getMonth() + 1` lies in 1..12, and the day falls inside that month of its year |
| `Calendar.MonthOfFirst` | src/controllers/statsController.ts:64-74 | the first day of month m of year y lies in year y and month m |
| `Calendar.DateOfMonthStart` | src/controllers/statsController.ts:64-74 | `new Date(y, i, 1)` is at midnight; which day it is, is stated by `DateOfMonthStartMonth`; for `y` outside 0..99 (see Left out) |
| `Calendar.DateOfMonthStartMonth` | src/controllers/statsController.ts:64-74 | `new Date(y, i, 1)` is the first day of month i mod 12 + 1 of year y + floor(i / 12), so month indices outside 0..11 roll over; for `y` outside 0..99 (see Left out) |
| `Calendar.DateOfMonthStartBeforeJanuary` | src/controllers/statsController.ts:70-74 | `new Date(y, -1, 1)` is 1 December of year y - 1 |
| `Calendar.InMonthIff` | src/controllers/statsController.ts:64-74 | a day lies in month m of year y exactly when it is on or after that month's first day and before the next month's |
| `Calendar.MonthStartAndBefore` | src/controllers/statsController.ts:64-74 | month indices m - 1 and m - 2 give the first of month m and the first of the month before, exactly that month's length apart |
| `Exercises.FailedPaths` | src/models/Exercise.ts:5-10 | no path fails exactly when all six required paths are present, with non-empty strings |
| `Exercises.Validate` | src/models/Exercise.ts:5-10 | accepts exactly when nothing fails, copying every field, and otherwise reports the failing paths |
| `Exercises.ValidateRoundTrip` | src/models/Exercise.ts:5-10 | validation gives back a record unchanged exactly when the record is well formed |
| `Exercises.Save` | src/models/Exercise.ts:17 | validation first, then the unique index: a duplicate (userId, muscleGroup) is refused with the store unchanged, otherwise the record is appended; uniqueness is preserved |
| `Exercises.AppendFreshKey` | src/models/Exercise.ts:17 | appending a record with a new (userId, muscleGroup) keeps the store unique |
| `Exercises.DifferentUsersShareMuscleGroup` | src/models/Exercise.ts:17 | two users can each store an exercise for the same muscle group |
| `Exercises.SecondEspaldaRefused` | src/models/Exercise.ts:17 | two "Espalda" exercises of one user violate the index, so the second is refused |
| `Templates.TrimStart` | src/models/WorkoutTemplate.ts:22 | drops exactly the leading white space |
| `Templates.TrimEnd` | src/models/WorkoutTemplate.ts:22 | drops exactly the trailing white space |
| `Templates.Trim` | src/models/WorkoutTemplate.ts:19-23 | the result is the input with only leading and trailing white space removed (everything before and after it is white space) and neither starts nor ends with white space |
| `Templates.TrimFixesTrimmed` | src/models/WorkoutTemplate.ts:19-23 | already-trimmed text is left unchanged |
| `Templates.TrimIdempotent` | src/models/WorkoutTemplate.ts:46-51 | trimming twice equals trimming once |
| `Templates.TrimAllSpace` | src/models/WorkoutTemplate.ts:19-23 | text made only of white space trims to empty |
| `Templates.Resolved` | src/models/WorkoutTemplate.ts:24-30 | every exercise reference is present, and the list keeps order and length |
| `Templates.ParseWorkoutType` | src/models/WorkoutTemplate.ts:41-45 | the `type` enumeration accepts exactly the four names, each naming the value it gives |
| `Templates.ParseFrequency` | src/models/WorkoutTemplate.ts:52-57 | the `frequency` enumeration accepts exactly the three names, each naming the value it gives |
| `Templates.EnumNamesRoundTrip` | src/models/WorkoutTemplate.ts:41-57 | the enumeration names of `type` and `frequency` parse back to their values |
| `Templates.Validate` | src/models/WorkoutTemplate.ts:17-62 | accepts iff name is non-blank after trimming, every exercise is present, duration is present and >= 0, userId is present, and type/frequency are absent or in their enumerations; the stored template is valid and carries the trimmed name, the given duration, userId and exercise references in order, the given type and frequency or the defaults strength/weekly, and the trimmed muscle groups; otherwise the failing paths |
| `Templates.ValidateRoundTrip` | src/models/WorkoutTemplate.ts:17-62 | re-submitting a valid stored template gives it back unchanged |
| `Templates.IsActiveIgnored` | src/models/WorkoutTemplate.ts:14 | `isActive` is on the interface but has no schema path, so it never changes what is stored |
| `Templates.BlankNameRefused` | src/models/WorkoutTemplate.ts:19-23 | a name made only of white space fails `required` after trimming |
| `Instances.Completed` | src/models/WorkoutInstance.ts:73-76 | completion sets `completed`, `completedAt`, `notes` and `progress` from the payload and keeps templateId, userId, date, weekNumber and year |
| `Instances.Scheduled` | src/models/WorkoutInstance.ts:38-59 | a new instance takes the schema defaults: not completed, no `completedAt`, no notes, empty progress, with the given template, user, date and key |
| `Instances.CompletionKeepsConsistency` | src/models/WorkoutInstance.ts:73-74 | completion keeps `completedAt` set exactly when `completed` holds |
| `Instances.RecompletionOverwrites` | src/models/WorkoutInstance.ts:73-77 | there is no guard against a second completion: it overwrites the first |
| `Instances.InstanceDoc.MarkAsCompleted` | src/models/WorkoutInstance.ts:67-78 | the document's new state is the completed state of the old one, with its identity unchanged |
| `Instances.FindWeek` | src/models/WorkoutInstance.ts:119 | exactly the stored instances of that user, week number and year |
| `Instances.FindWeekAppend` | src/models/WorkoutInstance.ts:139-142 | the query over a store that grew by a batch is the old answer followed by the batch's matches |
| `Instances.FindCurrentWeek` | src/models/WorkoutInstance.ts:145-154 | the instances keyed by `now`'s week number and calendar year |
| `Instances.InstanceStore.CurrentWeek` | src/models/WorkoutInstance.ts:145-154 | `findCurrentWeek` on the store: exactly the stored instances of the user under `now`'s week number and calendar year |
| `Instances.Missing` | src/models/WorkoutInstance.ts:127-128 | exactly the templates whose id is not yet present for the week |
| `Instances.SuggestDate` | src/models/WorkoutInstance.ts:92-101 | the anchor moved forward by 0..6 whole days, keeping the time of day |
| `Instances.BuildNewInstances` | src/models/WorkoutInstance.ts:126-138 | one instance per missing template, in template order, with that key, `completed = false`, no completion data, empty progress, dated 0..6 days after the anchor |
| `Instances.InstanceStore.CreateWeekInstances` | src/models/WorkoutInstance.ts:108-143 | the store grows by exactly the instances for the missing active templates, and the result is every instance under the anchor's key, the same list `findCurrentWeek` gives at that moment |
| `Instances.ExpansionCoversTemplates` | src/models/WorkoutInstance.ts:115-142 | afterwards every active template has an instance under the key |
| `Instances.ExpansionIdempotent` | src/models/WorkoutInstance.ts:119-142 | a second call with the same key inserts nothing and leaves the store as the first call left it |
| `Instances.ExpansionKeepsKeysUnique` | src/models/WorkoutInstance.ts:119-140 | with distinct template ids, sequential calls never create two instances with one (userId, templateId, weekNumber, year) |
| `Instances.CalendarYearKeyCollides` | src/models/WorkoutInstance.ts:112-113 | because the key uses the calendar year, two Mondays 52 weeks apart in 2024 get the same key (1, 2024) |
| `Instances.DecemberWeekOneSkipped` | src/models/WorkoutInstance.ts:112-142 | once 1 January 2024's week is expanded, a call anchored on 30 December 2024 inserts nothing |
| `Instances.SuggestedDateMayLeaveKeyedWeek` | src/models/WorkoutInstance.ts:96-99 | an instance anchored on Sunday 29 December 2024 (week 52) can be dated in ISO week 1 |
| `Stats.WeekStart` | src/controllers/statsController.ts:12-16 | Monday 00:00 of `now`'s week; Sunday maps six days back |
| `Stats.CompletedSince` | src/controllers/statsController.ts:19-23 | exactly the user's completed instances dated at or after the start, with no upper bound |
| `Stats.CompletedSinceCounts` | src/controllers/statsController.ts:19-27 | each matching document is answered as often as it is stored, so `totalWorkouts` counts equal documents separately |
| `Stats.CompletedSinceAppend` | src/controllers/statsController.ts:19-23 | the answer keeps store order: over a grown store it is the old answer followed by the new matches |
| `Stats.Populate` | src/controllers/statsController.ts:23 | `populate("templateId")` yields the template exactly when its id is in the template collection, and then that template |
| `Stats.DurationOf` | src/controllers/statsController.ts:37 | `template.duration \|\| 0`: the populated template's duration, 0 when the template is gone; never negative when durations are >= 0 |
| `Stats.ExerciseCountOf` | src/controllers/statsController.ts:38 | `template.exercises?.length \|\| 0`: the populated template's exercise count, 0 when the template is gone; never negative |
| `Stats.WeightOf` | src/controllers/statsController.ts:39-45 | the populated template's lifted weight, 0 when the template is gone |
| `Stats.AddLiftedWeights` | src/controllers/statsController.ts:39-45 | adds weight × reps × totalSets of every exercise to the running total |
| `Stats.AddInstance` | src/controllers/statsController.ts:34-47 | one instance adds its template's duration, exercise count and lifted weight, or nothing when its template is missing |
| `Stats.GetWeeklyStats` | src/controllers/statsController.ts:7-53 | `totalWorkouts` is the number of counted instances, and the other three fields are the sums over them |
| `Stats.TotalsStep` | src/controllers/statsController.ts:34-47 | each counted instance adds its own contribution to the three sums |
| `Stats.TotalsAppend` | src/controllers/statsController.ts:93-101 | the totals of two concatenated lists are the sums of their totals |
| `Stats.TotalsNonNegative` | src/controllers/statsController.ts:37-38 | with template durations >= 0, total duration and exercise count are never negative |
| `Stats.CurrentMonthStart` | src/controllers/statsController.ts:64-68 | the current window starts at 00:00 on the first of `now`'s month, not after `now`, for years outside 0..99 (see Left out) |
| `Stats.LastMonthStart` | src/controllers/statsController.ts:70-74 | the last-month window starts on the first of the previous calendar month (December of last year in January), exactly that month's length before the current window, for years outside 0..99 (see Left out) |
| `Stats.CurrentMonthWindow` | src/controllers/statsController.ts:64-81 | an instant is in [start of current month, now) exactly when it is before `now` and in `now`'s calendar month and year |
| `Stats.LastMonthWindow` | src/controllers/statsController.ts:64-86 | an instant is in [start of last month, start of current month) exactly when it is in the calendar month before `now`'s |
| `Stats.CurrentMonthInstances` | src/controllers/statsController.ts:78-82 | exactly the user's completed instances dated before `now` in `now`'s calendar month |
| `Stats.LastMonthInstances` | src/controllers/statsController.ts:83-87 | exactly the user's completed instances dated in the calendar month before `now`'s |
| `Stats.CompletedBetween` | src/controllers/statsController.ts:77-88 | exactly the user's completed instances dated in [from, to) |
| `Stats.CompletedBetweenCounts` | src/controllers/statsController.ts:77-92 | each matching document is answered as often as it is stored, so `totalWorkouts` counts equal documents separately |
| `Stats.CompletedBetweenAppend` | src/controllers/statsController.ts:77-88 | the answer keeps store order: over a grown store it is the old answer followed by the new matches |
| `Stats.MonthWindowsDisjoint` | src/controllers/statsController.ts:81-86 | no instance is counted in both months |
| `Stats.CalculateMonthStats` | src/controllers/statsController.ts:91-102 | `totalWorkouts` is the list length; `totalDuration` and `totalExercises` are the sums over the list of each populated template's duration and exercise count, 0 for a missing template (the sums `TotalsAppend` splits); with durations >= 0 they are never negative; an empty list gives all zeros |
| `Stats.CalculateChange` | src/controllers/statsController.ts:108-109 | 0 when previous is 0; otherwise the sign of current - previous, and applying the percentage to previous gives back current |
| `Stats.ChangeExamples` | src/controllers/statsController.ts:108-109 | 11 after 10 is +10 %; 5 after 0 is 0 |
| `Stats.ChangeMeaning` | src/controllers/statsController.ts:108-109 | a change is 0 when previous is 0; otherwise previous × (1 + change / 100) is current, and the change is 0 exactly when current equals previous |
| `Stats.ChangeMeansUnique` | src/controllers/statsController.ts:108-109 | that meaning fixes the change: two changes with it are equal |
| `Stats.GetMonthlyComparison` | src/controllers/statsController.ts:55-130 | for the workout count, duration and exercise totals of this month's and last month's instances: each change is 0 when last month's total is 0, and otherwise the percentage that takes last month's total to this month's, 0 exactly when they are equal; by `ChangeMeansUnique` no other comparison has that meaning |
| `Suggestions.WeekStart` | src/controllers/workoutController.ts:74-79 | Monday 00:00 of `now`'s week; Sunday counts six days back |
| `Suggestions.WithName` | src/controllers/workoutController.ts:84-91 | exactly the workouts of that name |
| `Suggestions.WithNameCounts` | src/controllers/workoutController.ts:84-91 | each workout of the name appears as often as it was fetched |
| `Suggestions.WithNameStep` | src/controllers/workoutController.ts:86-90 | one more fetched workout extends its name's list at the end, keeping fetch order |
| `Suggestions.UpcomingOf` | src/controllers/workoutController.ts:107-109 | exactly the workouts dated at or after `now` |
| `Suggestions.UpcomingOfCounts` | src/controllers/workoutController.ts:107-109 | each upcoming workout appears as often as it was fetched |
| `Suggestions.SwapDown` | src/controllers/workoutController.ts:112-114 | swaps two neighbours and keeps the multiset |
| `Suggestions.InsertDown` | src/controllers/workoutController.ts:112-114 | extends the date-sorted prefix by one element and keeps the multiset |
| `Suggestions.SortByDate` | src/controllers/workoutController.ts:122-124 | the array ends up sorted ascending by date and is a permutation of its old contents |
| `Suggestions.GroupByName` | src/controllers/workoutController.ts:84-91 | every name has its workouts in original order, and the name list holds each name once |
| `Suggestions.GroupStep` | src/controllers/workoutController.ts:86-90 | pushing one more workout onto its name's list keeps the grouping |
| `Suggestions.SortedCopy` | src/controllers/workoutController.ts:122-124 | a sorted permutation of the input |
| `Suggestions.EarliestOf` | src/controllers/workoutController.ts:112-116 | a minimum-date element of the upcoming workouts |
| `Suggestions.PickForName` | src/controllers/workoutController.ts:96-118 | no pick when a workout of the name is dated in [startOfWeek, now) or none is upcoming; otherwise the name's earliest upcoming workout |
| `Suggestions.PermutationKeepsNamesDistinct` | src/controllers/workoutController.ts:122-124 | reordering keeps names distinct |
| `Suggestions.PickStep` | src/controllers/workoutController.ts:95-119 | one step of the per-name loop keeps every pick the earliest upcoming one, names distinct and every eligible handled name covered |
| `Suggestions.SuggestUpcoming` | src/controllers/workoutController.ts:68-130 | each suggestion is a fetched workout, unmodified, dated >= now, of a name with nothing done this week, and no later than that name's other upcoming workouts; at most one per name; every eligible name has one; sorted by date |
| `Suggestions.ReorderKeepsSuggestions` | src/controllers/workoutController.ts:122-124 | the final sort keeps all those properties |
| `ProgressImages.Split` | src/controllers/progressImageController.ts:56 | `split`: no piece contains the separator, and joining the pieces gives the text back |
| `ProgressImages.AfterLast` | src/controllers/progressImageController.ts:56 | `split("/").pop()`: the suffix after the last separator, or the whole text when there is none |
| `ProgressImages.BeforeFirst` | src/controllers/progressImageController.ts:56 | `split("?")[0]`: the prefix before the first separator, or the whole text when there is none |
| `ProgressImages.AfterLastUnique` | src/controllers/progressImageController.ts:56 | that characterisation of the last segment determines it |
| `ProgressImages.BeforeFirstUnique` | src/controllers/progressImageController.ts:56 | that characterisation of the prefix determines it |
| `ProgressImages.FileName` | src/controllers/progressImageController.ts:56 | the prefix of the URL's last '/'-segment up to its first '?' (the whole segment when there is none), so it contains neither '/' nor '?' |
| `ProgressImages.FileNameOfDownloadUrl` | src/controllers/progressImageController.ts:56 | `…/name?query` yields `name` |
| `ProgressImages.StoragePath` | src/controllers/progressImageController.ts:58-62 | the object path ends with the file name |
| `ProgressImages.DeletedPathInOwnFolder` | src/controllers/progressImageController.ts:58-62 | the deleted object lies directly in the caller's `progress-photos/<userId>/` folder |
| `ProgressImages.ParseImageType` | src/models/ProgressImage.ts:7 | the `type` enumeration accepts exactly "front", "side" and "back", each naming the value it gives |
| `ProgressImages.CreateReply` | src/controllers/progressImageController.ts:18-39 | 401 iff the caller has no id, checked first; otherwise 400 iff `imageUrl` or `type` is missing or empty; the save is rejected iff both are given but the type is outside the enumeration; otherwise created, never 204; a created record has the caller's id, `now`, the given URL and the given type |
| `ProgressImages.ProgressImageStore.Create` | src/controllers/progressImageController.ts:18-39 | the reply is `CreateReply`'s; the record is stored under the fresh id only when created; the bucket is untouched |
| `ProgressImages.ProgressImageStore.Delete` | src/controllers/progressImageController.ts:41-74 | a caller without an id gets 401 before any lookup; an unknown id gives 404 before the ownership check; another owner gives 403; both change nothing; otherwise the object is deleted when the file name is non-empty, a storage failure is swallowed, and the record is removed |

## Left out

- Time zones, daylight-saving changes and the JavaScript `Date` object are
  not modelled. Every local day is 86 400 000 ms, and dates are local day
  numbers in the proleptic Gregorian calendar.
- Two limits of the JavaScript `Date` are not modelled. First, the
  constructor `new Date(y, m, d)` reads a year `y` in 0..99 as 1900 + y.
  Second, a `Date` holds at most ±8.64e15 ms, which is ±100 000 000 days
  around 1970-01-01; outside that range it is an invalid date. The model's
  calendar is proleptic Gregorian and unbounded, and `new Date(y, m, 1)`
  always means year y. The mapping applies to the year argument before any
  month rollover, so `new Date(0, -1, 1)` is 1 December 1899, while
  `new Date(100, -1, 1)` is 1 December 99, as in the model. The five lines
  below name what this changes.
- Calendar.WeekNumber: the 1..53 bound holds only when the Thursday of the
  week is not in a year 0..99. Otherwise `new Date(d.getFullYear(), 0, 1)`
  at src/models/WorkoutInstance.ts:85 is 1 January of 1900 + y, and the
  code's week number is far below 1.
- Calendar.DateOfMonthStart: when `year` (the first argument) is in 0..99,
  the code's date lies 1900 years later than the model's.
- Calendar.DateOfMonthStartMonth: holds only when `year` (the first
  argument) is not in 0..99, for the same reason.
- Stats.CurrentMonthStart: `Millis(r) <= Millis(now)` holds only when
  `now`'s year is not in 0..99. With `?currentDate=0050-06-15` the code
  starts the current month on 1 June 1950, after `now`, so the current
  window is empty.
- Stats.LastMonthStart: holds only when `now`'s year, the first argument of
  `new Date(now.getFullYear(), now.getMonth() - 1, 1)`, is not in 0..99;
  otherwise the code's window starts 1900 years later than the model's
  (in January of year 0 it is 1 December 1899).
- `Math.random()` in `suggestDateForWorkout` is a free choice of an offset in
  0..6. The clock (`new Date()`), the request's `currentDate` query
  parameter, new document ids and storage-bucket failures are parameters.
- Numbers are `int` or exact `real`. Double rounding, `NaN` and string
  parsing of `completedAt` are not modelled. In the running system
  `totalWeight` is `NaN`, because `populate("templateId")` does not resolve
  the template's nested exercise references. The model takes templates and
  exercises as already resolved.
- The active-template filter `{ userId, isActive: true }` is not modelled:
  the schema has no `isActive` path, so what it returns depends on the
  query settings. `CreateWeekInstances` takes the active templates as input.
- `populate("templateId")` is a join with a template map (`Stats.Populate`).
  The instances that `createWeekInstances` and `findCurrentWeek` return are
  not joined.
- Concurrency is not modelled. Two concurrent `createWeekInstances` calls
  can both insert, because read-then-insert is not atomic and instances
  have no unique index. Only sequential calls are verified.
- Mongoose errors other than schema validation and the duplicate key are
  not modelled: casts of non-string values, storage unavailability and the
  shared error handler's response mapping.
- The `Workout` schema (src/models/Workout.ts:3-13) has no `userId` path.
  Depending on mongoose's `strictQuery` setting, `Workout.find({ userId })`
  either drops the filter and returns every user's workouts, or matches
  none. The model takes the fetched list as given (`Suggestions.SuggestUpcoming`
  is stated over it), whatever it holds.
- Suggestions.EarliestOf: states only that the pick is a minimum-date
  upcoming workout. The code sorts with JavaScript's stable sort, so among
  equal dates it picks the one fetched first. The model's insertion sort
  is not proved stable.
- Suggestions.GroupByName: groups every workout by its name. In the code
  the grouping object is a plain `{}`, so for a workout named after an
  inherited `Object.prototype` member (`constructor`, `toString`, `valueOf`,
  `hasOwnProperty`, `__proto__`, ...) the lookup is truthy, no list is
  created, and the `push` throws; the model does not capture that failure.
- Suggestions.SuggestUpcoming: the order among suggestions with equal dates
  is not stated. JavaScript's sort is stable, and `for..in` visits
  integer-like names first, in numeric order. The model visits names in
  first-seen order and proves sortedness and contents only. It also does
  not capture the error answer the code gives when a workout's name is an
  inherited `Object.prototype` member (see `Suggestions.GroupByName`).
- ProgressImages: the timestamps, the `notes` path and the default `date`
  of the image schema are not modelled. `create` always supplies the date.
- Every handler starts with `getUserId`
  (src/controllers/baseController.ts:6-11), which answers 401 when the
  request carries no `uid`. The progress-photo handlers model that answer,
  with an empty caller id standing for the missing `uid`. The statistics,
  instance and suggestion operations take the caller id as given.
- Chat, Firebase token checking, route wiring, seeding and the CRUD pass-through
  controllers are not part of this model.
