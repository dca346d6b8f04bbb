# Gym tracker core, modelled in Dafny

A workout tracker: users log workout sessions, record weight, reps, sets and
a 1–10 difficulty rating for each exercise in a session, then complete the
session. They can browse their history and see a suggested next weight per
exercise. This project models the logic of that application in Dafny and
proves its properties:

- **`DurationFilters`**: the `duration_format` template filter. It renders an
  elapsed time as `H:MM` from one hour on, as `Mm` below an hour, as `""` for
  a falsy value, and as the value's own text for anything that is not a
  time span. Spans are in microseconds. `int(total_seconds())` cuts toward
  zero, and the model writes that out. The filter is proved correct against
  an independent reader (`RenderedMinutes`). The reader accepts only the two
  spellings the filter writes: no leading zeros, and minutes below 60. For a
  non-zero span of non-negative length, the text shown reads back as exactly
  the number of whole minutes elapsed. A number of minutes has only one
  spelling the reader accepts. A zero-length span is falsy and shows "".
- **`Models`**: the four entities.
  - A session's `duration`, with no wrap past midnight.
  - A record's `total_volume`, in exact hundredths of a kilogram.
  - A profile's `display_name`, using Python's `str.strip` whitespace set.
  - The field validators, the difficulty scale, the defaults, and the
    default orderings as total preorders.
  - A session object (`SessionInstance`) whose fields are updated in place.
- **`Views`**: the request handlers' logic.
  - Owner-scoped lookups, which answer 404 for another user's rows.
  - The weight recommendation and the per-exercise recommendation map.
  - The workout detail and its total volume.
  - Adding, editing and deleting records.
  - Completing a session.
  - The filtered, ordered and paginated history.
  - The dashboard queries and the profile's get-or-create.
  The current user, the current time and today's date are parameters.
- **`Seqs`**: what the query layer does with rows: filter, order (insertion
  sort, proved sorted and a permutation), take the first rows, and paginate.
  **`Text`**: `str(n)`, the `02d` format, `strip`, and lexicographic order.
  **`Wrappers`**: `Option` and `Result`.

Weights are integers in hundredths of a kilogram. `weight_kg` is a decimal
with five digits, two of them after the point, so 0 to 99999 hundredths. Dates are
day numbers. Times of day are microseconds since midnight. Creation
timestamps are integers.

Facts about the code that shape the model:

- An exercise the requester has no prior record of gets no entry in the
  recommendation map (workouts/views.py:130-145). It is not given a
  recommendation of 0.
- The recommendation adds or subtracts the float `2.5` to or from a decimal
  weight (workouts/views.py:163 and 169). Python refuses that, so the code
  as written recommends only for ratings 6 and 7 (see Findings). The
  recommendation map, `Views.ExerciseRecommendations`, models the intended
  rule `Views.RecommendedWeight`: exact decimal ±2.50 kg. The code as written
  is modelled separately by `Views.RecommendedWeightAsWritten`.
- A profile's partner differs from its user only because the profile form's
  choice list excludes the user (workouts/forms.py:144-146). The model
  itself does not enforce it.

## Model

| member | source | states |
|---|---|---|
| `Text.NatToString` | workouts/templatetags/duration_filters.py:20-23 | `str(n)` of a non-negative integer is a non-empty run of decimal digits with no leading zero, one digit exactly when n < 10 |
| `Text.NatToStringRoundTrip` | workouts/templatetags/duration_filters.py:20-23 | reading back the digits written for n gives n |
| `Text.Pad2` | workouts/templatetags/duration_filters.py:21 | `{minutes:02d}` is exactly two digits |
| `Text.CanonicalRoundTrip` | workouts/templatetags/duration_filters.py:20-23 | a numeral without leading zeros is exactly what `str()` writes for its value |
| `Text.Pad2Inverse` | workouts/templatetags/duration_filters.py:21 | any two digits are exactly what `{m:02d}` writes for their value |
| `Text.Pad2RoundTrip` | workouts/templatetags/duration_filters.py:21 | the two padded digits denote the minutes |
| `Text.Strip` | workouts/models.py:127 | `strip()` keeps a contiguous part of the name; everything cut off is whitespace and what is kept neither starts nor ends with whitespace |
| `Text.StripEmptyIffAllSpace` | workouts/models.py:127 | stripping leaves nothing exactly when the name is all whitespace |
| `Text.StripIdempotent` | workouts/models.py:127 | stripping a stripped name changes nothing |
| `Text.LexLeTotal` | workouts/models.py:15 | any two names are ordered one way or the other |
| `Text.LexLeTransitive` | workouts/models.py:15 | the name order chains |
| `Text.LexLeAntisymmetric` | workouts/models.py:15 | names ordered both ways are equal |
| `Seqs.FilterCount` | workouts/views.py:40-42 | `.count()` of a filter is the number of positions holding a row that meets the condition |
| `Seqs.Filter` | workouts/views.py:252-261 | a filter keeps exactly the rows meeting the condition, each as often as stored |
| `Seqs.SortBy` | workouts/views.py:263 | ordering a query rearranges its rows: same rows, same multiplicities |
| `Seqs.InsertSorted` | workouts/views.py:263 | placing a row into an ordered list keeps it ordered |
| `Seqs.SortBySorted` | workouts/views.py:263 | an ordered query is in order for any total preorder |
| `Seqs.SortedHeadFirst` | workouts/views.py:134-135 | the first row of an ordered query may precede every row of it |
| `Seqs.TakeOfSorted` | workouts/views.py:29-31 | the first n rows of an ordered query come from it, and each may precede every row left out |
| `Seqs.TakeOfSortedFilter` | workouts/views.py:29-31 | the first n rows of an ordered filter are min(n, matching count) matching rows, ordered, each preceding every matching row left out |
| `Seqs.Take` | workouts/views.py:29-31 | `[:n]` is the first min(n, count) rows |
| `Seqs.First` | workouts/views.py:34-36 | `.first()` is the first row, none exactly when there is no row |
| `Seqs.NumPages` | workouts/views.py:249 | an empty list has exactly one page; otherwise n pages of the given size hold its rows and the last page is non-empty |
| `Seqs.Page` | workouts/views.py:249 | page k (from 1) exists exactly for 1 ≤ k ≤ the number of pages, holds the page size of rows, or the remainder on the last page, and is the slice of the list starting at (k−1)·size |
| `Seqs.PageOfRow` | workouts/views.py:249 | row k of a list is entry k mod size of page k div size + 1 |
| `Seqs.PageOfSorted` | workouts/views.py:249 | a page of an ordered list is ordered and holds only rows of the list |
| `DurationFilters.Falsy` | workouts/templatetags/duration_filters.py:12 | `not value`: None, a zero-length span, or another falsy value |
| `DurationFilters.Hours` | workouts/templatetags/duration_filters.py:17 | `total_seconds // 3600` is the floor: hours·3600 ≤ seconds < (hours+1)·3600 |
| `DurationFilters.TotalSeconds` | workouts/templatetags/duration_filters.py:16 | whole seconds of a span, the fraction cut toward zero: never rounded up in magnitude |
| `DurationFilters.Minutes` | workouts/templatetags/duration_filters.py:17-18 | the minutes shown lie in [0, 59], and hours·3600 + minutes·60 ≤ seconds < hours·3600 + (minutes+1)·60 |
| `DurationFilters.DurationFormat` | workouts/templatetags/duration_filters.py:8-25 | falsy input (None, a zero-length span, any falsy value) gives ""; a non-span gives its own text; a span gives non-empty text ending in "m" exactly when it has no positive hours |
| `DurationFilters.RenderedMinutesDetermineText` | workouts/templatetags/duration_filters.py:20-23 | two texts the reader accepts and reads as the same minutes are the same text: each number of minutes has exactly one rendering |
| `DurationFilters.WholeMinutesSplit` | workouts/templatetags/duration_filters.py:17-18 | for non-negative seconds, hours·60 + minutes is the whole minutes |
| `DurationFilters.RenderedMinutesAreWholeMinutes` | workouts/templatetags/duration_filters.py:16-23 | for a non-empty span of non-negative length, the "H:MM" or "Mm" text reads back as exactly total_seconds div 60 |
| `DurationFilters.NegativeSpanShowsLeftoverMinutes` | workouts/templatetags/duration_filters.py:16-23 | a negative span is always shown as "Mm", with the leftover minutes of floor division (−1h30m shows "30m") |
| `DurationFilters.HoursAndMinutesExample` | workouts/test_templatetags.py:9-13 | 2h37m45s is shown as "2:37" |
| `DurationFilters.MinutesOnlyExample` | workouts/test_templatetags.py:15-19 | 45m30s is shown as "45m" |
| `DurationFilters.ZeroMinutesExample` | workouts/test_templatetags.py:21-25 | 1h0m30s is shown as "1:00": seconds are dropped, not rounded |
| `DurationFilters.FallbackExamples` | workouts/test_templatetags.py:27-35 | None is shown as "" and the text "2:30" as itself |
| `DurationFilters.NegativeSpanExample` | workouts/templatetags/duration_filters.py:17-23 | a span of −1h30m is shown as "30m" |
| `Models.ExerciseOrder` | workouts/models.py:15 | exercises are listed by name, ascending |
| `Models.ExerciseOrderIsTotalPreorder` | workouts/models.py:15 | ordering exercises by name is a total preorder |
| `Models.Duration` | workouts/models.py:41-50 | none exactly when there is no end time; otherwise start + duration = end on the same date, strictly within a day either way, negative exactly when the end precedes the start |
| `Models.DurationExample` | workouts/test_models.py:55-63 | 13:00 to 14:30 lasts 5400 seconds |
| `Models.SessionOrder` | workouts/models.py:35 | sessions are listed newest date first, then latest start first |
| `Models.SessionOrderIsTotalPreorder` | workouts/models.py:35 | newest date first, then latest start first, is a total preorder |
| `Models.SessionInstance.constructor` | workouts/models.py:28-31 | a new session has the start time stamped now, no end time, is not completed, and has no duration |
| `Models.ExerciseRecord.Valid` | workouts/models.py:73-82 | a record passes the validators: weight 0 to 999.99 kg, reps and sets at least 1, rating 1 to 10 |
| `Models.ExerciseRecord.TotalVolume` | workouts/models.py:92-95 | the volume is weight × reps × sets |
| `Models.NewRecord` | workouts/models.py:77 | the record carries exactly the given fields; a given sets count is kept and an omitted one is 1, and such a record with valid other fields is valid |
| `Models.TotalVolumeBounds` | workouts/models.py:92-95 | a valid record's weight × reps × sets is at least the weight, zero exactly when the weight is, and bounded by the field limits |
| `Models.TotalVolumeExample` | workouts/test_models.py:104-106 | 80.00 kg × 10 reps × 3 sets = 2400.00 |
| `Models.RecordOrder` | workouts/models.py:87 | records are listed newest `created_at` first |
| `Models.RecordOrderIsTotalPreorder` | workouts/models.py:87 | newest `created_at` first is a total preorder |
| `Models.ChoiceLabel` | workouts/models.py:56-67 | a choice key has a label exactly when some choice carries it, and the label is that choice's |
| `Models.DifficultyChoicesMatchValidators` | workouts/models.py:56-82 | the scale has exactly the keys 1 to 10 in order, "Very Easy" first and "Failure" last, so a rating has a label exactly when the validators accept it |
| `Models.DisplayName` | workouts/models.py:124-127 | an all-whitespace name shows the email; otherwise the shown name is the name without its surrounding whitespace, non-empty and trimmed |
| `Views.FindOwnedSession` | workouts/views.py:116-118 | the session is found exactly when it exists and belongs to the requester, and what is found is that session |
| `Views.FindOwnedRecord` | workouts/views.py:179-180 | a record is found exactly when one with that id is in one of the requester's sessions |
| `Views.RecommendedWeight` | workouts/views.py:159-169 | rating ≤ 5 adds 2.50 kg, 6–7 keeps the weight, ≥ 8 takes 2.50 kg off but not below 0; never negative for a non-negative weight and never more than 2.50 kg away |
| `Views.RecommendationMonotone` | workouts/views.py:159-169 | a heavier last weight never gets a lighter recommendation, a harder rating never a heavier one |
| `Views.RecommendationFloorExample` | workouts/views.py:167-169 | 1.00 kg rated 10 → 0; 80.00 kg rated 5 → 82.50; rated 7 → 80.00 |
| `Views.RecommendedWeightAsWritten` | workouts/views.py:161-169 | the code as written returns only the unchanged weight, and raises otherwise |
| `Views.AsWrittenRunsOnlyForSixAndSeven` | workouts/views.py:161-169 | the code as written returns a value exactly for ratings 6 and 7, where it agrees with the intended rule |
| `Views.AsWrittenCounterexample` | workouts/views.py:163 | 80.00 kg rated 5 raises where 82.50 kg was meant |
| `Views.UserRecordsOf` | workouts/views.py:130-135 | exactly the requester's records of the exercise, newest first |
| `Views.LatestRecord` | workouts/views.py:130-136 | some record exactly when the requester has a record of the exercise, and it is one of them |
| `Views.LatestRecordIsNewest` | workouts/views.py:134-135 | no record of the requester for the exercise is newer than the one picked |
| `Views.ExerciseRecommendations` | workouts/views.py:126-145 | an entry exactly for the exercises the requester has a record of, each with the last weight, last rating and the intended recommendation (`Views.RecommendedWeight`, not the code as written at lines 161-169) of the most recent such record |
| `Views.SumVolumes` | workouts/views.py:97 | a workout's total volume is the sum of its records' volumes |
| `Views.SumVolumesAppend` | workouts/views.py:97 | the volume of two lists of records together is the sum of their volumes |
| `Views.SumVolumesPermutation` | workouts/views.py:94-97 | the total volume does not depend on the order the records are listed in |
| `Views.SumVolumesRemove` | workouts/views.py:97 | taking one record out of a list lowers its volume by exactly that record's volume |
| `Views.SumVolumesNonNegative` | workouts/views.py:97 | valid records never total a negative volume |
| `Views.WorkoutDetailOf` | workouts/views.py:86-105 | 404 unless the session is the requester's; otherwise exactly the session's records, newest first, and their total volume |
| `Views.FormValid` | workouts/forms.py:38 | the record form validates exactly when the exercise exists and each field passes its model validator (workouts/models.py:73-82) |
| `Views.AddRecord` | workouts/views.py:148-150 | 404 unless the session is the requester's (lines 115-118), then the form must validate; the new record is appended to that session with exactly the submitted fields and nothing else changes |
| `Views.EditRecord` | workouts/views.py:172-180 | 404 unless the record is in one of the requester's sessions, then the form must validate; only that record changes, only in the form's fields, and stays valid |
| `Views.DeleteRecord` | workouts/views.py:188-195 | 404 unless the record is in one of the requester's sessions; then it is gone and every other record stays as often as it was |
| `Views.OthersRecordsUntouched` | workouts/views.py:179-195 | no edit or delete by a user touches a record in someone else's session |
| `Views.BindCompletionForm` | workouts/views.py:207 | the completion form sets the end time, notes and completed flag and nothing else |
| `Views.CompleteWorkout` | workouts/views.py:213-216 | the session ends completed whatever was submitted; a submitted end time stays and only a missing one is stamped now; nothing else changes and the session has a duration |
| `Views.CompleteWorkoutView` | workouts/views.py:203-217 | 404 exactly when no stored session has that id and belongs to the requester; otherwise that session's end time, notes and completed flag are set as `CompleteWorkout` states, and no other session changes |
| `Views.CompletionExample` | workouts/test_views.py:189-203 | create, then submit the end time 14:30: the session is completed and ends at 14:30 |
| `Views.InHistory` | workouts/views.py:252-261 | a session is listed when it is the requester's and its date lies within each bound given, both inclusive |
| `Views.History` | workouts/views.py:251-263 | exactly the requester's sessions within the inclusive bounds given, each as often as stored, newest date first and latest start first within a date; as many as there are such stored sessions |
| `Views.HistoryPage` | workouts/views.py:243-263 | page k exists exactly for 1 ≤ k ≤ the history's page count at 10 a page, and its entries are the history's from position (k−1)·10 on, 10 of them or the remainder on the last page; at most 10 of the requester's sessions within the bounds, in order; page 1 always exists |
| `Views.HistoryPaged` | workouts/views.py:243-263 | every session in the history is on some page of it |
| `Views.ExerciseList` | workouts/views.py:225-231 | every exercise, each as often as stored, by name ascending |
| `Views.ExerciseListPaged` | workouts/views.py:231 | every exercise is on some page of the 20-per-page list |
| `Views.RecentWorkouts` | workouts/views.py:29-31 | min(5, the requester's session count) of the requester's sessions, newest first; no session of theirs left out is newer than one shown |
| `Views.TodayWorkout` | workouts/views.py:34-36 | none exactly when the requester has no session today; otherwise a session of theirs today started no earlier than any other |
| `Views.RecentWorkoutsCount` | workouts/views.py:39-42 | the number of stored sessions that are the requester's and dated 30 days ago or later; zero exactly when there is none |
| `Views.RecentExercises` | workouts/views.py:45-47 | min(10, the requester's record count) of the requester's records, newest first; no record of theirs left out is newer than one shown |
| `Views.GetOrCreateProfile` | workouts/views.py:274-276 | the requester's profile; when there is none, a new one with an empty name, kilograms and no partner is added and nothing else changes |

## Left out

- The web framework and its queries are not modelled. This covers routing, templates, messages, redirects, login gating, authentication and the ORM. Only the filtering, ordering and 404s they express are modelled, over sequences of rows. Uniqueness constraints are not enforced on those sequences.
- The ranking of available exercises, the weight display formatter, and the user-management and invitation views are outside the modelled files (workouts/views.py, workouts/models.py, workouts/templatetags/duration_filters.py). None of them is modelled.
- Forms are reduced to their validation rules. Widgets, labels and placeholders are not modelled. The profile form's rule that keeps the user out of their own partner choices is a query and is not modelled.
- The admin site, URL routing, the command-line entry points and the demo-user seeding command are declarative or I/O only.
- `Models.ExerciseRecord.TotalVolume`: the code converts the weight to a binary float. The model computes in exact hundredths, so it does not capture float rounding.
- `DurationFilters.TotalSeconds`: `total_seconds()` is a float. For spans beyond 2^53 microseconds (about 285 years), the float's rounding is not modelled.
- `Models.ExerciseOrderIsTotalPreorder`: names are compared by code point. The database's collation is not modelled.
- `Views.LatestRecord`: the database leaves the order of rows with equal ordering keys unspecified. Ordering is modelled by a fixed insertion sort, so ties follow the stored order.
- `Views.History`: the query strings are parsed into dates by the framework, and that is not modelled. An absent or empty `date_from`/`date_to` is `None`. A malformed date is not modelled.
- The current time (`timezone.now()`, `auto_now_add`, `auto_now`) and today's date are parameters.
- Cascade deletes are not modelled, because no view deletes a session or an exercise.

## Findings

| source | as written | input that shows it | evidently intended | confidence | as-written member | corrected member |
|---|---|---|---|---|---|---|
| workouts/views.py:163 | `last_record.weight_kg + 2.5` adds a binary float to a `Decimal`; line 169 subtracts it. Python raises `TypeError` for both, so only ratings 6–7 produce a recommendation, and the add-exercise page fails whenever a user's latest record of any exercise is rated ≤ 5 or ≥ 8 | a prior record of 80.00 kg rated 5 | recommend 82.50 kg, using exact decimal ±2.50 | high; not executed | `Views.RecommendedWeightAsWritten` (with `Views.AsWrittenCounterexample`) | `Views.RecommendedWeight` |
