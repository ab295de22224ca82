/**
 * The business rules of the progress manager, stated over its step functions:
 * lazy defaults, save-then-read, idempotent marking, guarded completion, additive
 * time, quiz scores, and guarded import with its export round trip.
 */
module ProgressRules {
  import opened Outcomes
  import opened Types
  import opened Lessons
  import opened Storage
  import opened Progress

  // ---------------------------------------------------------------------------
  // Keys

  /** The two namespaces of the store never collide. */
  lemma LessonKeyNotProgressKey(lessonId: string)
    ensures LessonKey(lessonId) != ProgressKey
  {
    assert |LessonKey(lessonId)| > |ProgressKey|;
  }

  /** Different lessons have different keys. */
  lemma LessonKeyInjective(a: string, b: string)
    ensures LessonKey(a) == LessonKey(b) ==> a == b
  {
    var n := |LessonProgressKey + "-"|;
    assert LessonKey(a)[n..] == a;
    assert LessonKey(b)[n..] == b;
  }

  /** Writing another key leaves a lesson's record as it reads. */
  lemma ReadLessonOtherKey(catalog: seq<Lesson>, s: Store, key: string, v: Value, lessonId: string, now: string)
    requires key != LessonKey(lessonId)
    ensures ReadLesson(catalog, s[key := v], lessonId, now) == ReadLesson(catalog, s, lessonId, now)
  {
  }

  /** Writing a lesson key leaves the global record as it reads. */
  lemma ReadProgressLessonKey(s: Store, lessonId: string, v: Value, now: string)
    ensures ReadProgress(s[LessonKey(lessonId) := v], now) == ReadProgress(s, now)
  {
    LessonKeyNotProgressKey(lessonId);
  }

  // ---------------------------------------------------------------------------
  // Reading and saving

  /**
   * On a store without a global record, `getProgress` returns the empty record with
   * start date `now` and saves it, so that a later read returns that same record.
   */
  lemma FirstReadCreatesAndSaves(s: Store, now: string, later: string)
    requires ProgressKey !in s
    ensures ReadProgress(s, now) == Ok(UserProgress([], map[], "", now, 0, ""))
    ensures ReadProgress(StoreAfterReadProgress(s, now), later) == ReadProgress(s, now)
  {
    DecodeEncodeProgress(InitialProgress(now));
  }

  /** `getProgress` writes only when the global record is missing, and then only that key. */
  lemma ReadProgressWritesOnlyDefault(s: Store, now: string)
    ensures ProgressKey in s ==> StoreAfterReadProgress(s, now) == s
    ensures StoreAfterReadProgress(s, now).Keys == s.Keys + {ProgressKey}
    ensures forall k | k in s && k != ProgressKey :: StoreAfterReadProgress(s, now)[k] == s[k]
  {
  }

  /** `saveProgress(p)` followed by `getProgress()` returns `p`. */
  lemma SaveThenReadProgress(s: Store, p: UserProgress, now: string)
    ensures ReadProgress(s[ProgressKey := EncodeProgress(p)], now) == Ok(p)
  {
    DecodeEncodeProgress(p);
  }

  /** `saveLessonProgress(l, lp)` followed by `getLessonProgress(l)` returns `lp`. */
  lemma SaveThenReadLesson(catalog: seq<Lesson>, s: Store, lessonId: string, lp: LessonProgress, now: string)
    ensures ReadLesson(catalog, s[LessonKey(lessonId) := EncodeLesson(lp)], lessonId, now) == Ok(lp)
  {
    DecodeEncodeLesson(lp);
  }

  /** A lesson without a stored record reads as the record `initializeLessonProgress` makes. */
  lemma FreshLessonReadsInitial(catalog: seq<Lesson>, s: Store, lessonId: string, now: string)
    requires LessonKey(lessonId) !in s
    ensures ReadLesson(catalog, s, lessonId, now) == Ok(InitialLessonProgress(catalog, lessonId, now))
  {
  }

  /** The cleared flags of a list of exercises: each of their ids, and only those, mapped to false. */
  lemma ClearedFlagsExact(exs: seq<Exercise>)
    ensures ClearedFlags(exs).Keys == ExerciseIdSet(exs)
    ensures forall id | id in ClearedFlags(exs) :: !ClearedFlags(exs)[id]
  {
  }

  /**
   * The fresh record is not completed, has no time and no score, and has every flag
   * false; an id the catalog does not know gets no flags at all.
   */
  lemma FreshLessonProgress(catalog: seq<Lesson>, lessonId: string, now: string)
    ensures var lp := InitialLessonProgress(catalog, lessonId, now);
      && !lp.isCompleted && lp.timeSpent == 0 && lp.quizScore.None? && lp.lastAccessed == now
      && (forall id | id in lp.completedExercises :: !lp.completedExercises[id])
      && (lessonId !in LessonIds(catalog) ==> lp.completedExercises == map[])
  {
    match FindLesson(catalog, lessonId)
    case None =>
    case Some(lesson) =>
      ClearedFlagsExact(lesson.exercises);
  }

  /** The fresh record of the lesson found for an id flags exactly that lesson's exercise ids. */
  lemma FreshLessonFlagsFound(catalog: seq<Lesson>, lessonId: string, now: string, lesson: Lesson)
    requires FindLesson(catalog, lessonId) == Some(lesson)
    ensures InitialLessonProgress(catalog, lessonId, now).completedExercises.Keys == ExerciseIdSet(lesson.exercises)
  {
    ClearedFlagsExact(lesson.exercises);
  }

  /** With distinct lesson ids, the fresh record of catalog lesson `i` flags exactly its exercise ids. */
  lemma FreshLessonFlags(catalog: seq<Lesson>, i: nat, now: string)
    requires i < |catalog| && Distinct(LessonIds(catalog))
    ensures InitialLessonProgress(catalog, catalog[i].id, now).completedExercises.Keys == ExerciseIdSet(catalog[i].exercises)
  {
    FindLessonById(catalog, i);
    FreshLessonFlagsFound(catalog, catalog[i].id, now, catalog[i]);
  }

  // ---------------------------------------------------------------------------
  // markExerciseCompleted

  /**
   * Marking flags the exercise, keeps every other flag and every other field of the
   * lesson record, and leaves every other key of the store as it was. It raises, and
   * writes nothing, exactly when the lesson's stored record is unreadable.
   */
  lemma MarkExerciseEffect(catalog: seq<Lesson>, s: Store, lessonId: string, exerciseId: string, now: string, later: string)
    ensures var step := MarkExerciseStep(catalog, s, lessonId, exerciseId, now);
      && (step.outcome.Done? <==> ReadLesson(catalog, s, lessonId, now).Ok?)
      && (step.outcome.Raised? ==> step.store == s)
      && (forall k | k != LessonKey(lessonId) :: (k in step.store <==> k in s))
      && (forall k | k in s && k != LessonKey(lessonId) :: step.store[k] == s[k])
    ensures var step := MarkExerciseStep(catalog, s, lessonId, exerciseId, now);
      step.outcome.Done? ==>
        var before := ReadLesson(catalog, s, lessonId, now).value;
        && ReadLesson(catalog, step.store, lessonId, later).Ok?
        && var after := ReadLesson(catalog, step.store, lessonId, later).value;
        && Flagged(after.completedExercises, exerciseId)
        && (forall id | id != exerciseId :: Flagged(after.completedExercises, id) == Flagged(before.completedExercises, id))
        && after.completedExercises.Keys == before.completedExercises.Keys + {exerciseId}
        && after == before.(completedExercises := after.completedExercises)
  {
    var step := MarkExerciseStep(catalog, s, lessonId, exerciseId, now);
    if step.outcome.Done? {
      var before := ReadLesson(catalog, s, lessonId, now).value;
      SaveThenReadLesson(catalog, s, lessonId, before.(completedExercises := before.completedExercises[exerciseId := true]), later);
    }
  }

  /** Marking the same exercise again changes nothing (whatever the clock says). */
  lemma MarkExerciseIdempotent(catalog: seq<Lesson>, s: Store, lessonId: string, exerciseId: string, now: string, later: string)
    requires MarkExerciseStep(catalog, s, lessonId, exerciseId, now).outcome.Done?
    ensures var once := MarkExerciseStep(catalog, s, lessonId, exerciseId, now);
      MarkExerciseStep(catalog, once.store, lessonId, exerciseId, later) == once
  {
    var once := MarkExerciseStep(catalog, s, lessonId, exerciseId, now);
    var before := ReadLesson(catalog, s, lessonId, now).value;
    var marked := before.(completedExercises := before.completedExercises[exerciseId := true]);
    SaveThenReadLesson(catalog, s, lessonId, marked, later);
    assert marked.completedExercises[exerciseId := true] == marked.completedExercises;
    assert once.store[LessonKey(lessonId) := EncodeLesson(marked)] == once.store;
  }

  // ---------------------------------------------------------------------------
  // completeLesson

  /** The exercises of the catalog entry for `lessonId`; none when there is no entry. */
  function CatalogExercises(catalog: seq<Lesson>, lessonId: string): seq<Exercise> {
    match FindLesson(catalog, lessonId)
    case None => []
    case Some(lesson) => lesson.exercises
  }

  /** Completing a lesson the catalog does not know is a no-op. */
  lemma CompleteUnknownLessonNoOp(catalog: seq<Lesson>, s: Store, lessonId: string, now: string)
    requires lessonId !in LessonIds(catalog)
    ensures CompleteLessonStep(catalog, s, lessonId, now) == Step(s, Done)
  {
  }

  /** Completing a lesson with some catalog exercise not flagged is a no-op. */
  lemma CompleteUnfinishedLessonNoOp(catalog: seq<Lesson>, s: Store, lessonId: string, now: string)
    requires ReadLesson(catalog, s, lessonId, now).Ok?
    requires !AllFlagged(CatalogExercises(catalog, lessonId), ReadLesson(catalog, s, lessonId, now).value.completedExercises)
    ensures CompleteLessonStep(catalog, s, lessonId, now) == Step(s, Done)
  {
  }

  /** Conversely, completion changes the store only for a catalog lesson whose exercises are all flagged. */
  lemma CompleteLessonChangesOnlyWhenAllDone(catalog: seq<Lesson>, s: Store, lessonId: string, now: string)
    requires CompleteLessonStep(catalog, s, lessonId, now).store != s
    ensures lessonId in LessonIds(catalog)
    ensures ReadLesson(catalog, s, lessonId, now).Ok?
    ensures AllFlagged(CatalogExercises(catalog, lessonId), ReadLesson(catalog, s, lessonId, now).value.completedExercises)
  {
  }

  /** The global record after completing `lessonId`: the id appended once, if absent. */
  function WithLessonCompleted(p: UserProgress, lessonId: string): UserProgress {
    if lessonId in p.completedLessons then p
    else p.(completedLessons := p.completedLessons + [lessonId])
  }

  /** The completed list gains `lessonId` once, after the existing entries, and nothing else changes. */
  lemma WithLessonCompletedAppendsOnce(p: UserProgress, lessonId: string)
    ensures var after := WithLessonCompleted(p, lessonId);
      && after == p.(completedLessons := after.completedLessons)
      && lessonId in after.completedLessons
      && multiset(after.completedLessons)[lessonId] == (if lessonId in p.completedLessons then multiset(p.completedLessons)[lessonId] else 1)
      && |after.completedLessons| >= |p.completedLessons|
      && after.completedLessons[..|p.completedLessons|] == p.completedLessons
      && (lessonId !in p.completedLessons ==> after.completedLessons == p.completedLessons + [lessonId])
  {
    if lessonId !in p.completedLessons {
      assert multiset(p.completedLessons)[lessonId] == 0;
      assert (p.completedLessons + [lessonId])[..|p.completedLessons|] == p.completedLessons;
    }
  }

  /**
   * With every catalog exercise flagged, `completeLesson` saves the global record only
   * when the id was absent from it, and saves the lesson record marked completed.
   */
  lemma CompleteLessonWrites(catalog: seq<Lesson>, s: Store, lessonId: string, now: string, p: UserProgress, lp: LessonProgress)
    requires lessonId in LessonIds(catalog)
    requires ReadProgress(s, now) == Ok(p) && ReadLesson(catalog, s, lessonId, now) == Ok(lp)
    requires AllFlagged(CatalogExercises(catalog, lessonId), lp.completedExercises)
    ensures var s1 := StoreAfterReadProgress(s, now);
      var s2 := if lessonId in p.completedLessons then s1 else s1[ProgressKey := EncodeProgress(WithLessonCompleted(p, lessonId))];
      CompleteLessonStep(catalog, s, lessonId, now) == Step(s2[LessonKey(lessonId) := EncodeLesson(lp.(isCompleted := true))], Done)
  {
  }

  /**
   * A successful completion leaves the global record with the lesson id added once
   * (and not rewritten when it was already there) and the lesson record completed,
   * its other fields unchanged.
   */
  lemma CompleteLessonEffect(catalog: seq<Lesson>, s: Store, lessonId: string, now: string, later: string,
                             p: UserProgress, lp: LessonProgress)
    requires lessonId in LessonIds(catalog)
    requires ReadProgress(s, now) == Ok(p) && ReadLesson(catalog, s, lessonId, now) == Ok(lp)
    requires AllFlagged(CatalogExercises(catalog, lessonId), lp.completedExercises)
    ensures var step := CompleteLessonStep(catalog, s, lessonId, now);
      && step.outcome.Done?
      && ReadProgress(step.store, later) == Ok(WithLessonCompleted(p, lessonId))
      && ReadLesson(catalog, step.store, lessonId, later) == Ok(lp.(isCompleted := true))
      && (lessonId in p.completedLessons ==>
            ProgressKey in step.store && step.store[ProgressKey] == StoreAfterReadProgress(s, now)[ProgressKey])
  {
    var s1 := StoreAfterReadProgress(s, now);
    var done := lp.(isCompleted := true);
    CompleteLessonWrites(catalog, s, lessonId, now, p, lp);
    LessonKeyNotProgressKey(lessonId);
    if lessonId in p.completedLessons {
      assert ReadProgress(s1, later) == Ok(p) by {
        if ProgressKey !in s {
          FirstReadCreatesAndSaves(s, now, later);
        }
      }
      ReadProgressLessonKey(s1, lessonId, EncodeLesson(done), later);
      SaveThenReadLesson(catalog, s1, lessonId, done, later);
    } else {
      SaveBothThenRead(catalog, s1, lessonId, WithLessonCompleted(p, lessonId), done, later);
    }
  }

  // ---------------------------------------------------------------------------
  // saveQuizScore and updateTimeSpent

  /** Writing both records and reading them back returns them. */
  lemma SaveBothThenRead(catalog: seq<Lesson>, s: Store, lessonId: string, p: UserProgress, lp: LessonProgress, later: string)
    ensures var s2 := s[ProgressKey := EncodeProgress(p)][LessonKey(lessonId) := EncodeLesson(lp)];
      ReadProgress(s2, later) == Ok(p) && ReadLesson(catalog, s2, lessonId, later) == Ok(lp)
  {
    LessonKeyNotProgressKey(lessonId);
    SaveThenReadProgress(s, p, later);
    SaveThenReadLesson(catalog, s[ProgressKey := EncodeProgress(p)], lessonId, lp, later);
  }

  /** Saving the global record (as `getProgress` may) leaves a lesson's record as it reads. */
  lemma ReadLessonAfterProgressWrite(catalog: seq<Lesson>, s: Store, p: UserProgress, lessonId: string, lp: LessonProgress, now: string)
    requires ReadLesson(catalog, s, lessonId, now) == Ok(lp)
    ensures ReadLesson(catalog, StoreAfterReadProgress(s, now)[ProgressKey := EncodeProgress(p)], lessonId, now) == Ok(lp)
  {
    LessonKeyNotProgressKey(lessonId);
    if ProgressKey !in s {
      ReadLessonOtherKey(catalog, s, ProgressKey, EncodeProgress(InitialProgress(now)), lessonId, now);
    }
    ReadLessonOtherKey(catalog, StoreAfterReadProgress(s, now), ProgressKey, EncodeProgress(p), lessonId, now);
  }

  /** With both records readable, `saveQuizScore` rewrites both, with the score set in each. */
  lemma SaveQuizScoreWrites(catalog: seq<Lesson>, s: Store, lessonId: string, score: int, now: string, p: UserProgress, lp: LessonProgress)
    requires ReadProgress(s, now) == Ok(p) && ReadLesson(catalog, s, lessonId, now) == Ok(lp)
    ensures SaveQuizScoreStep(catalog, s, lessonId, score, now)
      == Step(StoreAfterReadProgress(s, now)
                [ProgressKey := EncodeProgress(p.(quizScores := p.quizScores[lessonId := score]))]
                [LessonKey(lessonId) := EncodeLesson(lp.(quizScore := Some(score)))], Done)
  {
    ReadLessonAfterProgressWrite(catalog, s, p.(quizScores := p.quizScores[lessonId := score]), lessonId, lp, now);
  }

  /** Recording a score sets it both in the global map and on the lesson record; no range check. */
  lemma SaveQuizScoreEffect(catalog: seq<Lesson>, s: Store, lessonId: string, score: int, now: string, later: string,
                            p: UserProgress, lp: LessonProgress)
    requires ReadProgress(s, now) == Ok(p) && ReadLesson(catalog, s, lessonId, now) == Ok(lp)
    ensures var step := SaveQuizScoreStep(catalog, s, lessonId, score, now);
      && step.outcome.Done?
      && ReadProgress(step.store, later) == Ok(p.(quizScores := p.quizScores[lessonId := score]))
      && ReadLesson(catalog, step.store, lessonId, later) == Ok(lp.(quizScore := Some(score)))
  {
    SaveQuizScoreWrites(catalog, s, lessonId, score, now, p, lp);
    SaveBothThenRead(catalog, StoreAfterReadProgress(s, now), lessonId,
                     p.(quizScores := p.quizScores[lessonId := score]), lp.(quizScore := Some(score)), later);
  }

  /** With both records readable, `updateTimeSpent` rewrites both with `delta` added. */
  lemma UpdateTimeSpentWrites(catalog: seq<Lesson>, s: Store, lessonId: string, delta: int, now: string, p: UserProgress, lp: LessonProgress)
    requires ReadProgress(s, now) == Ok(p) && ReadLesson(catalog, s, lessonId, now) == Ok(lp)
    ensures UpdateTimeSpentStep(catalog, s, lessonId, delta, now)
      == Step(StoreAfterReadProgress(s, now)
                [ProgressKey := EncodeProgress(WithTimeAdded(p, delta))]
                [LessonKey(lessonId) := EncodeLesson(WithLessonTimeAdded(lp, delta))], Done)
  {
    ReadLessonAfterProgressWrite(catalog, s, WithTimeAdded(p, delta), lessonId, lp, now);
  }

  /** Time is added to both totals; a negative delta is not rejected. */
  lemma UpdateTimeSpentEffect(catalog: seq<Lesson>, s: Store, lessonId: string, delta: int, now: string, later: string,
                              p: UserProgress, lp: LessonProgress)
    requires ReadProgress(s, now) == Ok(p) && ReadLesson(catalog, s, lessonId, now) == Ok(lp)
    ensures var step := UpdateTimeSpentStep(catalog, s, lessonId, delta, now);
      && step.outcome.Done?
      && ReadProgress(step.store, later) == Ok(WithTimeAdded(p, delta))
      && ReadLesson(catalog, step.store, lessonId, later) == Ok(WithLessonTimeAdded(lp, delta))
  {
    UpdateTimeSpentWrites(catalog, s, lessonId, delta, now, p, lp);
    SaveBothThenRead(catalog, StoreAfterReadProgress(s, now), lessonId,
                     WithTimeAdded(p, delta), WithLessonTimeAdded(lp, delta), later);
  }

  /** Besides the two records, time accounting leaves the store alone. */
  lemma UpdateTimeSpentFrame(catalog: seq<Lesson>, s: Store, lessonId: string, delta: int, now: string)
    ensures var step := UpdateTimeSpentStep(catalog, s, lessonId, delta, now);
      forall k | k in s && k != ProgressKey && k != LessonKey(lessonId) :: k in step.store && step.store[k] == s[k]
  {
  }

  /** Two reports of 300 seconds add 600 seconds to both totals. */
  lemma UpdateTimeSpentTwice(catalog: seq<Lesson>, s: Store, lessonId: string, now: string, later: string,
                             p: UserProgress, lp: LessonProgress)
    requires ReadProgress(s, now) == Ok(p) && ReadLesson(catalog, s, lessonId, now) == Ok(lp)
    ensures var first := UpdateTimeSpentStep(catalog, s, lessonId, 300, now);
      var second := UpdateTimeSpentStep(catalog, first.store, lessonId, 300, later);
      && second.outcome.Done?
      && ReadProgress(second.store, later) == Ok(WithTimeAdded(p, 600))
      && ReadLesson(catalog, second.store, lessonId, later) == Ok(WithLessonTimeAdded(lp, 600))
  {
    UpdateTimeSpentEffect(catalog, s, lessonId, 300, now, later, p, lp);
    var first := UpdateTimeSpentStep(catalog, s, lessonId, 300, now);
    UpdateTimeSpentEffect(catalog, first.store, lessonId, 300, later, later,
                          WithTimeAdded(p, 300), WithLessonTimeAdded(lp, 300));
    assert WithTimeAdded(WithTimeAdded(p, 300), 300) == WithTimeAdded(p, 600);
    assert WithLessonTimeAdded(WithLessonTimeAdded(lp, 300), 300) == WithLessonTimeAdded(lp, 600);
  }

  // ---------------------------------------------------------------------------
  // importProgress and exportProgress

  /** A rejected import returns false and leaves the store untouched. */
  lemma ImportRejects(s: Store, input: ImportInput)
    requires
      || input.Unparsable?
      || !input.value.Obj?
      || "completedLessons" !in input.value.fields
      || !input.value.fields["completedLessons"].Arr?
      || "quizScores" !in input.value.fields
      || !(input.value.fields["quizScores"].Obj? || input.value.fields["quizScores"].Arr?)
      || !HasStr(input.value.fields, "startDate")
      || input.value.fields["startDate"].s == ""
    ensures !ImportAccepted(input) && StoreAfterImport(s, input) == s
  {
  }

  /** Every record the manager can read, with a non-empty start date, passes validation. */
  lemma ReadableRecordValidates(v: Value)
    requires DecodeProgress(v).Some? && DecodeProgress(v).value.startDate != ""
    ensures ValidateProgress(v).None?
  {
  }

  /**
   * Importing what was exported succeeds exactly when the start date is non-empty,
   * and then the global record reads back unchanged.
   */
  lemma ExportImportRoundTrip(s: Store, now: string, later: string)
    requires ReadProgress(s, now).Ok?
    ensures var p := ReadProgress(s, now).value;
      var exported := Exported(s, now).value;
      var s1 := StoreAfterReadProgress(s, now);
      && Exported(s, now).Ok?
      && (ImportAccepted(Parsed(exported)) <==> p.startDate != "")
      && ReadProgress(StoreAfterImport(s1, Parsed(exported)), later) == Ok(p)
  {
    var p := ReadProgress(s, now).value;
    var s1 := StoreAfterReadProgress(s, now);
    DecodeEncodeProgress(p);
    SaveThenReadProgress(s1, p, later);
    if ProgressKey !in s {
      FirstReadCreatesAndSaves(s, now, later);
    }
  }
}
