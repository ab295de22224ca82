# TypeScript tutor: progress layer and page logic

This project models the client-side progress layer of a TypeScript tutoring web app,
together with the deterministic logic of the pages and components that use it.

- **`ProgressManager`** (`progress.dfy`, `progress_rules.dfy`, `storage.dfy`). There is one global
  `UserProgress` record and one `LessonProgress` record per lesson, kept in a string-keyed
  store. Reading a missing global record creates and saves a default. Reading a missing lesson
  record returns one built from the catalog. Marking an exercise is idempotent. Completing a
  lesson requires every catalog exercise to be flagged. Time is added to both totals. Quiz
  scores are recorded in both records. Import is guarded by a shape validator. Each operation is
  a method of the class `ProgressManager`. It is proved equal to a step function on the store,
  and the business rules are lemmas about those step functions.
- **The lesson catalog** (`lessons.dfy`, `types.dfy`). The eight lessons are a constant. Lemmas
  prove the facts that the completion rules rely on: distinct lesson and exercise ids, known
  difficulties, `order` equal to the position, non-empty exercise lists, prerequisites placed
  earlier (so there is no prerequisite cycle), answers among the options, and starter texts
  equal to the answers.
- **`useLessonProgress`** (`lesson_view.dfy`). The derived metrics are functions of the local
  copy. The class `LessonView` holds that copy (`None` while loading) and keeps it in step with
  what the manager has stored.
- **The roadmap page** (`roadmap.dfy`). Lessons are grouped into difficulty buckets by a loop.
  Each bucket is sorted in place by `order` with an insertion sort on an array. Sections come in
  the fixed order of `SECTION_LABELS`, and empty ones are skipped. Each section shows a
  completed/total count.
- **The progress dashboard** (`dashboard.dfy`). `formatTime` turns seconds into its label. The
  import handler refreshes the displayed record only after an accepted import.
- **The quiz block** (`quiz_block.dfy`). A class with the three state fields, moved by select,
  submit and reset. The `onComplete` callback is recorded as the list of values it received.
- **The home page** (`home_page.dfy`). It builds the featured-lesson cards and their completion
  overlay, capitalises the difficulty label, and computes the statistics line.

Local storage is an in-memory `map<string, Value>`. `Value` is a parsed JSON value
(null, boolean, integer, string, array or object), and any field of it may be missing or of
the wrong kind. Saving stores the encoded record; reading decodes it. Clock readings
(`new Date().toISOString()`, `Date.now()`) are parameters.

## Model

| member | source | states |
|---|---|---|
| Progress.InitialProgress | lib/progress.ts:99-107 | The empty record: no completed lessons, no scores, zero time, empty last and current lesson, and start date `now`. An import of it is accepted exactly when `now` is non-empty. |
| Progress.ReadProgress | lib/progress.ts:8-14 | A missing global key reads as the initial record. A present one reads successfully exactly when it decodes to a record, and otherwise raises `CorruptData` on the global key. |
| Progress.StoreAfterReadProgress | lib/progress.ts:8-12 | After `getProgress` the global key is present. The store is untouched when the key was already there, and the record reads the same before and after. |
| Progress.ClearedFlags | lib/progress.ts:114-119 | Maps every exercise id of the list to false; `ProgressRules.ClearedFlagsExact` proves the keys are exactly those ids. |
| Progress.InitialLessonProgress | lib/progress.ts:112-126 | A fresh lesson record: not completed, no quiz score, no time, stamped `now`. An id the catalog does not know gets no flags. |
| Progress.ReadLesson | lib/progress.ts:16-22 | A missing lesson key reads as the fresh record. A present one reads successfully exactly when it decodes, and otherwise raises `CorruptData` on the lesson key. |
| Progress.MarkExerciseStep | lib/progress.ts:35-39 | Raises exactly when the lesson record is unreadable, and then writes nothing. Otherwise only the lesson's key changes. |
| Progress.CompleteLessonStep | lib/progress.ts:46-60 | An id the catalog does not know is a no-op that ends normally. A completion that raises leaves the store unchanged. |
| Progress.SaveQuizScoreStep | lib/progress.ts:62-70 | An unreadable global record raises `CorruptData` before anything is written. A normal end leaves both the global and the lesson record stored. |
| Progress.UpdateTimeSpentStep | lib/progress.ts:72-80 | An unreadable global record raises `CorruptData` before anything is written. A normal end leaves both the global and the lesson record stored. |
| Progress.ImportAccepted | lib/progress.ts:87-97 | An import succeeds exactly when the text parsed and the value passed `validateProgress`; `ProgressRules.ImportRejects` lists the rejected shapes. |
| Progress.ProgressManager.constructor | lib/progress.ts:4-6 | The manager consults the shipped catalog and starts from the given store. |
| Progress.ProgressManager.GetProgress | lib/progress.ts:8-14 | Returns the stored global record, the default record when none is stored, or a corrupt-data error. The store gains the default record only when the key was missing. |
| Progress.ProgressManager.GetLessonProgress | lib/progress.ts:16-22 | Returns the stored lesson record, or the fresh record built from the catalog when none is stored. It never writes the store. |
| Progress.ProgressManager.SaveProgress | lib/progress.ts:24-26 | Only the global key changes; it now holds the encoded record. |
| Progress.ProgressManager.SaveLessonProgress | lib/progress.ts:28-33 | Only the lesson's key `typescript-tutor-lesson-progress-<id>` changes; it now holds the encoded record. |
| Progress.ProgressManager.MarkExerciseCompleted | lib/progress.ts:35-39 | The new store and the outcome are those of the read-flag-save step (see `MarkExerciseEffect`). |
| Progress.ProgressManager.IsExerciseCompleted | lib/progress.ts:41-44 | Succeeds exactly when the lesson record is readable, and then answers the truthiness of its flag (a missing flag is false). |
| Progress.ProgressManager.CompleteLesson | lib/progress.ts:46-60 | The new store and the outcome are those of the guarded completion step (see `CompleteLessonEffect`). |
| Progress.ProgressManager.SaveQuizScore | lib/progress.ts:62-70 | The new store and the outcome are those of the two-record score step (see `SaveQuizScoreEffect`). |
| Progress.ProgressManager.UpdateTimeSpent | lib/progress.ts:72-80 | The new store and the outcome are those of the two-record time step (see `UpdateTimeSpentEffect`). |
| Progress.ProgressManager.ExportProgress | lib/progress.ts:82-85 | Returns the global record as read (creating it if missing), serialised. |
| Progress.ProgressManager.ImportProgress | lib/progress.ts:87-97 | Returns true exactly when the input parsed and passed validation. The candidate replaces the global record only then, and nothing else changes. |
| Progress.ProgressManager.InitializeProgress | lib/progress.ts:99-110 | Returns the empty record started at `now` and saves it under the global key. |
| Progress.ProgressManager.InitializeLessonProgress | lib/progress.ts:112-126 | Returns the fresh lesson record: not completed, no score, no time, and flags from the catalog entry (none for an unknown id). |
| Progress.ProgressManager.ClearExerciseFlags | lib/progress.ts:114-119 | The `forEach` loop maps every exercise id of the list, and only those, to false. |
| Progress.ValidateProgress | lib/progress.ts:128-138 | Accepts exactly an object with an array `completedLessons`, an object (or array) `quizScores` and a non-empty string `startDate`. Reports `NotAnObject` exactly for `null`. |
| Storage.DecodeProgress | lib/types.ts:22-29 | A value reads as a global record only if it is an object with an array `completedLessons`, an object `quizScores` and a string `startDate`, which becomes the record's start date. |
| Storage.DecodeEncodeProgress | lib/progress.ts:24-26 | Decoding what `saveProgress` stores gives the same global record back. |
| Storage.DecodeEncodeLesson | lib/progress.ts:28-33 | Decoding what `saveLessonProgress` stores gives the same lesson record back, with or without a quiz score. |
| ProgressRules.LessonKeyNotProgressKey | lib/progress.ts:5-6 | No lesson key equals the global key. |
| ProgressRules.LessonKeyInjective | lib/progress.ts:17 | Different lesson ids have different storage keys. |
| ProgressRules.ReadLessonOtherKey | lib/progress.ts:16-22 | Writing any other key leaves a lesson's record reading the same. |
| ProgressRules.ReadProgressLessonKey | lib/progress.ts:8-14 | Writing a lesson key leaves the global record reading the same. |
| ProgressRules.FirstReadCreatesAndSaves | lib/progress.ts:8-12 | On a store without the global record, the read returns the empty record with start date `now`, and a later read of the updated store returns the same record. |
| ProgressRules.ReadProgressWritesOnlyDefault | lib/progress.ts:8-12 | `getProgress` writes nothing when the record exists. Otherwise it adds only the global key and leaves every other key alone. |
| ProgressRules.SaveThenReadProgress | lib/progress.ts:24-26 | `saveProgress(p)` followed by `getProgress()` returns `p`. |
| ProgressRules.SaveThenReadLesson | lib/progress.ts:28-33 | `saveLessonProgress(l, lp)` followed by `getLessonProgress(l)` returns `lp`. |
| ProgressRules.FreshLessonReadsInitial | lib/progress.ts:16-20 | A lesson with no stored record reads as the record `initializeLessonProgress` makes. |
| ProgressRules.ClearedFlagsExact | lib/progress.ts:114-119 | The cleared flags have exactly the exercise ids as keys, all false. |
| ProgressRules.FreshLessonProgress | lib/progress.ts:112-126 | A fresh record is not completed, has no time and no score, is stamped `now`, and has every flag false. An unknown id gets an empty flag map. |
| ProgressRules.FreshLessonFlagsFound | lib/progress.ts:113-119 | The fresh record's flag keys are exactly the exercise ids of the lesson found. |
| ProgressRules.FreshLessonFlags | lib/progress.ts:112-119 | With distinct lesson ids, the fresh record of catalog lesson `i` flags exactly that lesson's exercise ids. |
| ProgressRules.MarkExerciseEffect | lib/progress.ts:35-39 | Raises, writing nothing, exactly when the lesson record is unreadable. Otherwise the exercise is flagged, every other flag is unchanged, the flag keys gain only the exercise id, every other field of the record is unchanged, and every other key is unchanged. |
| ProgressRules.MarkExerciseIdempotent | lib/progress.ts:35-39 | Marking the same exercise again, at any time, leaves the store as the first marking left it. |
| ProgressRules.CompleteUnknownLessonNoOp | lib/progress.ts:47-48 | Completing an id the catalog does not know leaves the store unchanged. |
| ProgressRules.CompleteUnfinishedLessonNoOp | lib/progress.ts:49-52 | Completing a lesson with some catalog exercise not flagged true leaves the store unchanged. |
| ProgressRules.CompleteLessonChangesOnlyWhenAllDone | lib/progress.ts:46-60 | Conversely, if completion changed the store, the lesson is in the catalog, its record is readable and every catalog exercise is flagged. |
| ProgressRules.WithLessonCompletedAppendsOnce | lib/progress.ts:54-57 | The completed list keeps its earlier entries in order and contains the id. An absent id is added exactly once at the end; otherwise the list is unchanged. No other field changes. |
| ProgressRules.CompleteLessonWrites | lib/progress.ts:53-59 | With all exercises flagged, the global record is rewritten only when the id was absent, and the lesson record is saved marked completed. |
| ProgressRules.CompleteLessonEffect | lib/progress.ts:53-59 | After a successful completion, the global record reads with the id added once, and the stored global value is untouched when the id was already there. The lesson record reads as before with `isCompleted` set. |
| ProgressRules.SaveBothThenRead | lib/progress.ts:62-80 | Writing both records and reading them back returns them. |
| ProgressRules.ReadLessonAfterProgressWrite | lib/progress.ts:63-67 | Saving the global record, as `getProgress` may, leaves the lesson's record reading the same. |
| ProgressRules.SaveQuizScoreWrites | lib/progress.ts:62-70 | With both records readable, both are rewritten with the score set in each. |
| ProgressRules.SaveQuizScoreEffect | lib/progress.ts:62-70 | The score reads back as `quizScores[l]` and as the lesson's `quizScore`. Any integer is accepted. |
| ProgressRules.UpdateTimeSpentWrites | lib/progress.ts:72-80 | With both records readable, both are rewritten with the delta added. |
| ProgressRules.UpdateTimeSpentEffect | lib/progress.ts:72-80 | `totalTimeSpent` and the lesson's `timeSpent` both read back increased by the delta, negative or not. |
| ProgressRules.UpdateTimeSpentFrame | lib/progress.ts:72-80 | Every key other than the two records is left as it was. |
| ProgressRules.UpdateTimeSpentTwice | lib/progress.ts:72-80 | Two reports of 300 seconds add 600 seconds to both totals. |
| ProgressRules.ImportRejects | lib/progress.ts:87-97 | A missing or non-array `completedLessons`, a missing or non-object `quizScores`, a missing, non-string or empty `startDate`, or unparsable text each give false and leave the store unchanged. |
| ProgressRules.ReadableRecordValidates | lib/progress.ts:128-138 | Every value the manager can read as a record with a non-empty start date passes validation. |
| ProgressRules.ExportImportRoundTrip | lib/progress.ts:82-97 | Importing the exported record is accepted exactly when its start date is non-empty, and the global record then reads back unchanged. |
| Lessons.LessonIds | lib/lessons.ts:3-239 | The id list has one entry per lesson, the i-th being lesson i's id. |
| Lessons.FindLesson | lib/progress.ts:47 | `lessons.find` returns nothing exactly when no lesson has the id; otherwise it returns a catalog lesson with that id. |
| Lessons.FindLessonFirst | lib/progress.ts:47 | The lesson found is the first one carrying the id. |
| Lessons.FindLessonById | lib/progress.ts:47 | With distinct ids, finding a lesson's own id finds that lesson. |
| Lessons.CatalogLessonIdsAre | lib/lessons.ts:6-213 | The catalog's lesson ids are the eight ids in array order. |
| Lessons.CatalogLessonIdsListDistinct | lib/lessons.ts:6-213 | The eight lesson ids are pairwise distinct. |
| Lessons.CatalogExerciseIdsDistinct | lib/lessons.ts:13-228 | The sixteen exercise ids are pairwise distinct across the whole catalog. |
| Lessons.CatalogPrerequisitesEarlier | lib/lessons.ts:47-217 | Every prerequisite of lesson `i` names a lesson placed before it. |
| Lessons.CatalogLessonWellFormed | lib/lessons.ts:3-239 | Each lesson has a declared difficulty, `order` equal to its 1-based position, a non-empty exercise list and earlier prerequisites. Its multiple-choice answers are among the options, and its coding exercises have no options and start from their answer. |
| Lessons.CatalogIsWellFormed | lib/lessons.ts:3-239 | The whole catalog is well formed: distinct lesson ids, distinct exercise ids, and every lesson well formed. |
| Lessons.PrerequisiteEdgeGoesBack | lib/lessons.ts:47-217 | In a well-formed catalog, a prerequisite edge always points to an earlier lesson. |
| Lessons.PrerequisiteChainDescends | lib/lessons.ts:47-217 | Every prerequisite chain in a well-formed catalog ends strictly before it starts. |
| Lessons.CatalogPrerequisitesAcyclic | lib/lessons.ts:47-217 | The catalog's prerequisite relation has no cycle. |
| LessonView.CountFlagged | hooks/useLessonProgress.ts:15-17 | The completed count never exceeds the number of exercises. |
| LessonView.CountFlaggedAll | hooks/useLessonProgress.ts:15-19 | Every exercise is counted exactly when every exercise is flagged true. |
| LessonView.CountIgnoresStrayFlags | hooks/useLessonProgress.ts:15-17 | A flag under an id that is not an exercise of the lesson does not change the count. |
| LessonView.MarkCountsOnce | hooks/useLessonProgress.ts:45-57 | With distinct exercise ids, flagging an id adds one to the count exactly when it is an unflagged exercise of the lesson, and nothing otherwise. |
| LessonView.TotalExercises | hooks/useLessonProgress.ts:11-12 | An id the catalog does not know has 0 exercises. |
| LessonView.CompletedCount | hooks/useLessonProgress.ts:15-17 | The count is 0 while loading and never exceeds `totalExercises`. |
| LessonView.QuizScore | hooks/useLessonProgress.ts:18 | The score is the nearest integer to 100·completed/total, with halves rounded up, and 0 when there are no exercises. |
| LessonView.QuizScoreRange | hooks/useLessonProgress.ts:18 | For completed ≤ total the score lies in [0, 100]. It is 0 when nothing is completed and 100 when everything is. |
| LessonView.Derive | hooks/useLessonProgress.ts:11-21 | Loading holds exactly when there is no local copy. The total is the catalog count, and the completed count is at most the total. The score is in [0, 100] and is 100 when all are done. All-done holds exactly when total > 0 and completed == total. While loading, every value is zero or false. |
| LessonView.AllCompletedIsManagerGuard | hooks/useLessonProgress.ts:19 | The hook's all-done flag holds exactly when the id is in the catalog, the lesson has at least one exercise, and the manager's completion guard holds. |
| LessonView.SessionSeconds | hooks/useLessonProgress.ts:30 | The whole seconds of the session, rounded down; never negative when the clock did not go back. |
| LessonView.ReadLessonClock | lib/progress.ts:16-22 | Reading a lesson record at another time changes at most its `lastAccessed` stamp. |
| LessonView.MatchesAnyTime | hooks/useLessonProgress.ts:23-26 | If the local copy matches the stored record at one time, it matches at any time. |
| LessonView.LessonView.constructor | hooks/useLessonProgress.ts:8-9 | The view starts loading, with the start time recorded. |
| LessonView.LessonView.Values | hooks/useLessonProgress.ts:64-76 | Field by field, from the local copy and the catalog: loading exactly while no copy is held. The total is the catalog lesson's exercise count and the completed count is its flagged exercises. The score is the rounded percentage of the two, and all-done means total > 0 and completed == total. `isCompleted` and `timeSpent` come from the copy (false and 0 while loading). |
| LessonView.LessonView.Mount | hooks/useLessonProgress.ts:23-26 | Loads the stored record (the store is unchanged) and then the copy is in step with it. An unreadable record raises, and the view stays loading. |
| LessonView.LessonView.IsExerciseCompleted | hooks/useLessonProgress.ts:59-62 | False while loading. Once loaded, it agrees with the flag the manager has stored. |
| LessonView.LessonView.MarkExerciseCompleted | hooks/useLessonProgress.ts:45-57 | Does nothing while loading. Otherwise the manager marks the exercise, the local map gains `e ↦ true` with everything else unchanged, the flag reads true, and the copy stays in step with the store. |
| LessonView.LessonView.CompleteLesson | hooks/useLessonProgress.ts:37-43 | Does nothing unless all exercises are done. Otherwise the manager completes the lesson, and it ends normally exactly when the global record is readable. Only then does the local copy get `isCompleted` set, with its other fields unchanged. The copy stays in step with the store. |
| LessonView.LessonView.Teardown | hooks/useLessonProgress.ts:29-34 | Reports the session's whole seconds to both time totals through the manager. |
| LessonView.CompleteLessonSynced | lib/progress.ts:46-60 | For a lesson whose catalog exercises are all flagged, completion ends normally exactly when the global record is readable. The lesson record then reads as completed; if completion raised, it reads as before. |
| Roadmap.SectionLabel | app/roadmap/page.tsx:14-19 | The four section headings, one per key of `SECTION_LABELS`. |
| Roadmap.BucketKey | app/roadmap/page.tsx:24-27 | The chained conditional choosing a lesson's group; `Roadmap.BucketKeyCases` proves its cases. |
| Roadmap.Bucket | app/roadmap/page.tsx:21-32 | A bucket is never longer than the lesson list. |
| Roadmap.BucketMembers | app/roadmap/page.tsx:21-32 | A bucket holds only lessons of the list whose bucket key is its own. |
| Roadmap.BucketKeyCases | app/roadmap/page.tsx:24-27 | The bucket key is the difficulty for the three known difficulties, "bonus" for anything else, and always one of the section keys. |
| Roadmap.LessonInOwnBucket | app/roadmap/page.tsx:21-32 | Every lesson lands in the bucket of its key. |
| Roadmap.BucketSizesSum | app/roadmap/page.tsx:21-32 | The four bucket sizes sum to the number of lessons, so each lesson lands in exactly one bucket. |
| Roadmap.GroupLessons | app/roadmap/page.tsx:21-32 | The loop builds a map whose keys are exactly the non-empty buckets. Each holds its lessons in list order, as pushed. |
| Roadmap.SortByOrder | app/roadmap/page.tsx:55 | The array is sorted in place: afterwards ascending by `order` and a permutation of what it held. |
| Roadmap.Swap | app/roadmap/page.tsx:55 | Swapping two neighbours keeps the length and the multiset of lessons. |
| Roadmap.InsertLast | app/roadmap/page.tsx:55 | Inserting the next element into the sorted prefix keeps the prefix sorted and the contents a permutation. |
| Roadmap.SortedUnique | app/roadmap/page.tsx:55 | Two ascending arrangements of the same lessons are equal when one of them has no repeated `order`. So a stable and an unstable sort agree there. |
| Roadmap.BucketIncreasing | app/roadmap/page.tsx:21-32 | A bucket of a list with strictly increasing orders has strictly increasing orders: the loop keeps the list's relative order. |
| Roadmap.CatalogIncreasing | lib/lessons.ts:40-237 | The shipped catalog's orders strictly increase along the list. |
| Roadmap.CatalogSectionInCatalogOrder | app/roadmap/page.tsx:55 | For the shipped catalog, any ascending arrangement of a section's lessons is that bucket in catalog order, so the sorted section is fully determined. |
| Roadmap.VisibleKeys | app/roadmap/page.tsx:54-56 | There are never more visible keys than section keys. |
| Roadmap.VisibleKeysMembers | app/roadmap/page.tsx:54-56 | A key is visible exactly when it is a section key whose bucket is non-empty. |
| Roadmap.SectionLessons | app/roadmap/page.tsx:55 | A section's lessons are its bucket, sorted by `order`, as a permutation. |
| Roadmap.SectionsFor | app/roadmap/page.tsx:54-56 | The loop over the keys shows one section per key with a non-empty bucket, in key order, each with its label and its sorted bucket. |
| Roadmap.Sections | app/roadmap/page.tsx:14-19 | The page shows the sections in the order beginner, intermediate, advanced, bonus. Empty ones are skipped; the others carry the label and the bucket sorted by `order`. |
| Roadmap.SectionsMatchVisible | app/roadmap/page.tsx:54-56 | Spelled out: as many sections as visible keys, the j-th being the j-th visible key's section. |
| Roadmap.CardCompleted | app/roadmap/page.tsx:57 | A lesson counts as completed when progress has loaded and lists its id. |
| Roadmap.CompletedInSection | app/roadmap/page.tsx:57-58 | 0 ≤ completed ≤ total, and 0 before progress loads. |
| Roadmap.CompletedCountsListedIds | app/roadmap/page.tsx:57 | With distinct ids, `completed` is the number of section ids listed in `completedLessons`, however often and in whatever order they are listed. |
| Roadmap.CompletedIgnoresOtherIds | app/roadmap/page.tsx:57 | Listing an id that belongs to no lesson of the section does not change its count. |
| Roadmap.NoBonusWhenKnown | app/roadmap/page.tsx:24-27 | Lessons with known difficulties leave the "bonus" bucket empty. |
| Roadmap.CatalogHasNoBonusSection | lib/lessons.ts:211-217 | The shipped catalog puts no lesson in the "bonus" bucket, so "Bonus Modules" is never shown, even for the lesson written under that comment. |
| Dashboard.Hours | components/ProgressDashboard.tsx:36 | `Math.floor(seconds / 3600)`: the unique h with 3600·h ≤ seconds < 3600·h + 3600, rounding down for negative totals too. |
| Dashboard.Minutes | components/ProgressDashboard.tsx:37 | `Math.floor((seconds % 3600) / 60)`: the unique m with 60·m ≤ r < 60·m + 60 for the JavaScript remainder r. It is in [0, 59] for a non-negative total and in [−60, 0] for a negative one. |
| Dashboard.FormatTime | components/ProgressDashboard.tsx:35-39 | For every total, negative ones included, the label `${hours}h ${minutes}m` reads back as exactly `Hours` and `Minutes`. By `ReadTimeExact`, no other text reads back as them. |
| Dashboard.JsRemainder | components/ProgressDashboard.tsx:37 | JavaScript's `%` by a positive divisor: the same as the mathematical remainder for a non-negative dividend. For a negative one it lies in (−b, 0]. In both cases the dividend minus the remainder is a multiple of the divisor. |
| Dashboard.FormatTimeBounds | components/ProgressDashboard.tsx:36-37 | For a non-negative total, minutes are in [0, 59] and hours·3600 + minutes·60 ≤ seconds < that + 60, so leftover seconds are dropped. |
| Dashboard.FormatTimeNegative | components/ProgressDashboard.tsx:35-39 | A negative total of -30 seconds shows as "-1h -1m". |
| Dashboard.LabelReadsBack | components/ProgressDashboard.tsx:38 | A label `<h>h <m>m` built from any two integers reads back as exactly those integers. |
| Dashboard.ReadTimeExact | components/ProgressDashboard.tsx:38 | A text that reads back as (h, m) is exactly the label of h and m. The reader accepts no leading zeros, no "-0" and nothing extra, so the label is pinned character for character. |
| Dashboard.ProgressDashboard.constructor | components/ProgressDashboard.tsx:6-8 | The displayed record is the one `getProgress` reads, and it may save the default. |
| Dashboard.ProgressDashboard.HandleImport | components/ProgressDashboard.tsx:25-30 | Returns whether the import was accepted. On rejection neither the display nor the store changes. On acceptance the store holds the candidate and the display is re-read from it. |
| Dashboard.ProgressDashboard.TimeSpentLabel | components/ProgressDashboard.tsx:49 | The time line is shown exactly when the record was read, and it is then `FormatTime` of the record's `totalTimeSpent`. |
| Decimal.NatToString | components/ProgressDashboard.tsx:38 | A non-empty string of decimal digits with no leading zero. |
| Decimal.IntToString | components/ProgressDashboard.tsx:38 | Template-literal printing of an integer: never empty, and it starts with `-` exactly when the integer is negative. |
| Decimal.NatToStringReadsBack | components/ProgressDashboard.tsx:38 | Reading the printed digits back gives the number. |
| Decimal.NatToStringInjective | app/page.tsx:31-33 | Different numbers are printed differently. |
| Decimal.IntToStringReadsBack | components/ProgressDashboard.tsx:38 | The printed text starts with `-` exactly for a negative integer. The digits (after the sign, if any) read back as its magnitude. |
| Decimal.IntToStringInjective | components/ProgressDashboard.tsx:38 | Different integers are printed differently. |
| Decimal.CanonicalDigitsWritten | components/ProgressDashboard.tsx:38 | Digits with no leading zero (other than "0" itself) are exactly what printing their value writes. |
| Decimal.ReadIntExactly | components/ProgressDashboard.tsx:38 | The integer reader accepts a text as i exactly when the text is how `${i}` prints i. |
| QuizBlock.QuizBlock.constructor | components/quiz-block.tsx:22-24 | No selection, result hidden, not correct, no callback yet. |
| QuizBlock.QuizBlock.Select | components/quiz-block.tsx:61-62 | A click is ignored while the result is shown; otherwise it selects the option. The other fields are unchanged. |
| QuizBlock.QuizBlock.Submit | components/quiz-block.tsx:26-33 | With no selection nothing changes and the callback is not called. Otherwise the result is shown, `isCorrect` is whether the selection is the correct index, and the callback is called once with that verdict. |
| QuizBlock.QuizBlock.Reset | components/quiz-block.tsx:35-39 | Returns to exactly the initial state; earlier callbacks stay reported. |
| QuizBlock.QuizBlock.Footer | components/quiz-block.tsx:110-121 | "Try Again" is offered exactly when the result is shown. Before that, "Submit Answer" is offered and enabled only with a selection. |
| QuizBlock.SelectThenSubmit | components/quiz-block.tsx:26-33 | From the initial state, select then submit reports exactly one verdict: whether the option is the correct one. |
| QuizBlock.SubmitThenSelectAgain | components/quiz-block.tsx:61-62 | A click after submitting does not change the judged answer or the verdict. |
| HomePage.UpperAscii | app/page.tsx:17 | `toUpperCase` on an ASCII letter: a lower-case letter becomes the upper-case letter at the same position, anything else is unchanged, and the result is never lower-case. |
| HomePage.Capitalize | app/page.tsx:17 | The label has the same length, its first character is upper-cased and the rest are unchanged. |
| HomePage.CapitalizedDifficulties | app/page.tsx:17 | The three difficulties show as "Beginner", "Intermediate" and "Advanced". |
| HomePage.InitialFeatured | app/page.tsx:13-20 | The first min(3, n) catalog lessons in catalog order, each card built from its lesson and not completed. |
| HomePage.FeaturedOf | app/page.tsx:13-20 | A card keeps its lesson's id and title and carries the fixed description. It shows the capitalised difficulty and starts uncompleted. Its duration reads back as the estimated time, which by `DurationTextExact` pins the text `${n} min`. |
| HomePage.DurationReadsBack | app/page.tsx:18 | The duration text `<n> min` reads back as n. |
| HomePage.DurationTextExact | app/page.tsx:18 | Only the text `<n> min` with n printed without leading zeros reads back as n. |
| HomePage.MountCompletion | app/page.tsx:22-28 | Succeeds exactly when every card's lesson record is readable. Then each card's `completed` becomes that record's `isCompleted`, and everything else stays in order. A failure comes from one unreadable card. |
| HomePage.FreshStoreShowsNothingCompleted | app/page.tsx:22-28 | With no lesson record stored, the mount leaves every card uncompleted. |
| HomePage.CatalogFeatured | app/page.tsx:13-20 | The shipped catalog features its first three lessons, all "Beginner" and uncompleted. |
| HomePage.ExerciseTotal | app/page.tsx:32 | The reduce over all lessons counts at least the exercises of each single lesson. |
| HomePage.Stats | app/page.tsx:30-35 | Four entries in order: "Lessons", "Code Examples", "Quizzes" and "Students". The first three values read back as the lesson count, the exercise total and the multiple-choice total, which by `FigureTextExact` pins each text `${n}+`. The last is the fixed "10K+". |
| HomePage.FigureReadsBack | app/page.tsx:31-33 | A figure `<n>+` reads back as n. |
| HomePage.FigureTextExact | app/page.tsx:31-33 | Only the text `<n>+` with n printed without leading zeros reads back as n. |
| HomePage.MultipleChoiceCount | app/page.tsx:33 | A lesson's multiple-choice count never exceeds its exercise count. |
| HomePage.MultipleChoiceTotal | app/page.tsx:32-33 | "Quizzes" never exceeds "Code Examples". |
| HomePage.TwoExerciseTotals | app/page.tsx:32-33 | Lessons with one multiple-choice and one coding exercise give two exercises and one quiz each. |
| HomePage.CatalogShape | lib/lessons.ts:11-38 | The first lesson has two multiple-choice exercises; every later one has one multiple-choice and one coding exercise. |
| HomePage.CatalogStats | app/page.tsx:30-35 | The shipped catalog's statistics line reads "8+" lessons, "16+" code examples, "9+" quizzes and "10K+" students. |

## Left out

- JSON text. A stored entry is the value its text parses to. `JSON.stringify` of the two records is
  `EncodeProgress`/`EncodeLesson`. The import input is `Unparsable` or the parsed value.
- Progress.ReadProgress: a store entry is always a parsed JSON value, so two kinds of stored text
  cannot occur in the model. Text that does not parse is one: there `JSON.parse` throws
  (lib/progress.ts:13 and :21), which is the only input on which the source's reads raise. The
  empty string is the other: `if (!stored)` treats it like a missing key and initialises the
  record. Neither arises from what the program itself writes, because `JSON.stringify` of a record
  is never empty and always parses.
- Progress.ReadProgress and Progress.ReadLesson: `getProgress` and `getLessonProgress` return
  whatever `JSON.parse` yields, even an object missing fields (an accepted import only checks
  three of them). The model's `CorruptData` error stands only for such a parsed value of the
  wrong shape: the model reports it instead of returning a partial record. A record that reads
  successfully keeps only the declared fields, so extra fields of an imported object are not
  carried along.
- Numbers are integers. JavaScript's floating point is not modelled: `quizScore` uses the
  exact integer formula (200·c + t) div (2·t) in place of `Math.round`, and scores and times with
  fractions are not represented.
- The roadmap's `percent` bar (a float) and all JSX, CSS classes and layout are left out.
- The clock: ISO timestamps and `Date.now()` are parameters.
- `localStorage` quota errors, `console.error`, and the Blob/URL/FileReader plumbing of export and
  import are left out. The dashboard's `exportProgress` download is the manager's `ExportProgress`.
- HomePage.Capitalize: upper-cases ASCII letters only; `toUpperCase` on other characters is not
  modelled (every difficulty string is ASCII).
- LessonView.LessonView.Teardown: React runs the cleanup once per mount; the model does not
  stop a second call. Re-running the effect when `lessonId` changes is not modelled: a view is
  for one lesson id.
- LessonView.LessonView.CompleteLesson and LessonView.LessonView.MarkExerciseCompleted: the hook
  updates its copy through a functional `setProgress`. The model assigns the new copy directly
  after the manager returns, and an exception from the manager leaves the copy as it was.
- Roadmap.SectionLessons: the page sorts the `grouped[key]` array itself, in place. The model sorts
  a fresh array holding the same lessons, so it does not capture that the grouping map's arrays
  are reordered.
- Roadmap.SortByOrder: `Array.prototype.sort` has been stable since ECMAScript 2019, and so is the
  model's insertion sort, which swaps neighbours only on a strictly greater `order`. The contract
  states a sorted permutation but not stability, so it does not fix the order of lessons with
  equal `order`. For distinct orders the outcome is unique anyway (`Roadmap.SortedUnique`). In
  the shipped catalog lesson `i` has order `i + 1`, so every section comes out in catalog order
  (`Roadmap.CatalogSectionInCatalogOrder`).
- The tests under `__tests__` that expect an unknown lesson to complete, or that expect a
  `saveQuizScore` from the hook, do not describe the code and are not modelled.
