/**
 * The lesson hook: a local copy of one lesson's progress record, the values derived
 * from it (counts, score, flags), and the actions that write through the manager and
 * then update the local copy. The hook and the manager consult the same catalog.
 */
module LessonView {
  import opened Outcomes
  import opened Types
  import opened Lessons
  import opened Storage
  import opened Progress
  import opened ProgressRules

  // ---------------------------------------------------------------------------
  // Derived values

  /** `lesson.exercises.filter(ex => completedExercises[ex.id]).length`. */
  function CountFlagged(exs: seq<Exercise>, flags: map<string, bool>): (n: nat)
    ensures n <= |exs|
  {
    if exs == [] then 0
    else CountFlagged(exs[..|exs| - 1], flags) + (if Flagged(flags, exs[|exs| - 1].id) then 1 else 0)
  }

  /** Every exercise is counted exactly when every exercise is flagged. */
  lemma {:induction false} CountFlaggedAll(exs: seq<Exercise>, flags: map<string, bool>)
    ensures CountFlagged(exs, flags) == |exs| <==> AllFlagged(exs, flags)
  {
    if exs != [] {
      var init := exs[..|exs| - 1];
      CountFlaggedAll(init, flags);
      if CountFlagged(exs, flags) == |exs| {
        forall ex | ex in exs
          ensures Flagged(flags, ex.id)
        {
          if ex != exs[|exs| - 1] {
            var i :| 0 <= i < |exs| && exs[i] == ex;
            assert ex in init by { assert init[i] == ex; }
          }
        }
      }
      if AllFlagged(exs, flags) {
        assert exs[|exs| - 1] in exs;
        assert AllFlagged(init, flags) by {
          forall ex | ex in init
            ensures Flagged(flags, ex.id)
          {
            var i :| 0 <= i < |init| && init[i] == ex;
            assert exs[i] == ex;
          }
        }
      }
    }
  }

  /** A flag under an id that names no exercise of the lesson does not change the count. */
  lemma {:induction false} CountIgnoresStrayFlags(exs: seq<Exercise>, flags: map<string, bool>, id: string, b: bool)
    requires id !in ExerciseIdSet(exs)
    ensures CountFlagged(exs, flags[id := b]) == CountFlagged(exs, flags)
  {
    if exs != [] {
      var init := exs[..|exs| - 1];
      ExerciseIdSetSnoc(exs);
      CountIgnoresStrayFlags(init, flags, id, b);
    }
  }

  /** The exercise ids of a list and of its last exercise. */
  lemma ExerciseIdSetSnoc(exs: seq<Exercise>)
    requires |exs| > 0
    ensures ExerciseIdSet(exs) == ExerciseIdSet(exs[..|exs| - 1]) + {exs[|exs| - 1].id}
  {
    var n := |exs| - 1;
    var init := exs[..n];
    forall x | x in ExerciseIdSet(exs)
      ensures x in ExerciseIdSet(init) + {exs[n].id}
    {
      var ex :| ex in exs && ex.id == x;
      var i :| 0 <= i < |exs| && exs[i] == ex;
      if i < n {
        assert init[i] == ex;
      }
    }
    forall x | x in ExerciseIdSet(init)
      ensures x in ExerciseIdSet(exs)
    {
      var ex :| ex in init && ex.id == x;
      var i :| 0 <= i < n && init[i] == ex;
      assert exs[i] == ex;
    }
    assert exs[n] in exs;
  }

  predicate DistinctExerciseIds(exs: seq<Exercise>) {
    forall i, j | 0 <= i < j < |exs| :: exs[i].id != exs[j].id
  }

  /**
   * With distinct exercise ids, flagging one more exercise raises the count by one
   * when it is an exercise of the lesson that was not flagged yet, and otherwise
   * leaves it as it was.
   */
  lemma {:induction false} MarkCountsOnce(exs: seq<Exercise>, flags: map<string, bool>, id: string)
    requires DistinctExerciseIds(exs)
    ensures CountFlagged(exs, flags[id := true])
         == CountFlagged(exs, flags) + (if id in ExerciseIdSet(exs) && !Flagged(flags, id) then 1 else 0)
  {
    if exs != [] {
      var n := |exs| - 1;
      var init := exs[..n];
      assert DistinctExerciseIds(init) by {
        forall i, j | 0 <= i < j < n
          ensures init[i].id != init[j].id
        {
          assert init[i] == exs[i] && init[j] == exs[j];
        }
      }
      MarkCountsOnce(init, flags, id);
      ExerciseIdSetSnoc(exs);
      assert exs[n].id !in ExerciseIdSet(init) by {
        forall ex | ex in init
          ensures ex.id != exs[n].id
        {
          var i :| 0 <= i < n && init[i] == ex;
          assert exs[i] == ex;
        }
      }
    }
  }

  /** `totalExercises`: the number of exercises of the catalog lesson, 0 for an unknown id. */
  function TotalExercises(catalog: seq<Lesson>, lessonId: string): (n: nat)
    ensures lessonId !in LessonIds(catalog) ==> n == 0
  {
    |CatalogExercises(catalog, lessonId)|
  }

  /** `completedCount`: flagged exercises of the catalog lesson; 0 while loading. */
  function CompletedCount(catalog: seq<Lesson>, lessonId: string, progress: Option<LessonProgress>): (n: nat)
    ensures n <= TotalExercises(catalog, lessonId)
    ensures progress.None? ==> n == 0
  {
    if progress.None? then 0
    else CountFlagged(CatalogExercises(catalog, lessonId), progress.value.completedExercises)
  }

  /**
   * `Math.round((completed / total) * 100)` on exact rationals: the nearest integer to
   * `100 * completed / total`, halves rounded up; 0 when there are no exercises.
   */
  function QuizScore(completed: nat, total: nat): (r: int)
    ensures total > 0 ==> 2 * total * r <= 200 * completed + total < 2 * total * r + 2 * total
    ensures total == 0 ==> r == 0
  {
    if total > 0 then (200 * completed + total) / (2 * total) else 0
  }

  /** The score is a percentage: 0 for nothing done, 100 for everything done. */
  lemma QuizScoreRange(completed: nat, total: nat)
    requires completed <= total
    ensures 0 <= QuizScore(completed, total) <= 100
    ensures completed == 0 ==> QuizScore(completed, total) == 0
    ensures 0 < total && completed == total ==> QuizScore(completed, total) == 100
  {
    var r := QuizScore(completed, total);
    if total > 0 {
      var d := 2 * total;
      ProductSign(d, r + 1);
      ProductSign(d, r - 101);
      ProductSign(d, r - 1);
      ProductSign(d, r - 99);
    }
  }

  /** The sign of a product with a positive factor is the sign of the other factor. */
  lemma ProductSign(a: int, k: int)
    requires a > 0
    ensures k <= 0 ==> a * k <= 0
    ensures k >= 0 ==> a * k >= 0
  {
  }

  /** What the hook returns, apart from its three callbacks. */
  datatype HookValues = HookValues(
    totalExercises: nat,
    completedCount: nat,
    quizScore: int,
    allExercisesCompleted: bool,
    isCompleted: bool,
    timeSpent: int,
    isLoading: bool)

  /** The values of one render of `useLessonProgress(lessonId)` with local state `progress`. */
  function Derive(catalog: seq<Lesson>, lessonId: string, progress: Option<LessonProgress>): (h: HookValues)
    ensures h.isLoading <==> progress.None?
    ensures h.totalExercises == TotalExercises(catalog, lessonId)
    ensures h.completedCount <= h.totalExercises
    ensures 0 <= h.quizScore <= 100
    ensures h.allExercisesCompleted <==> h.totalExercises > 0 && h.completedCount == h.totalExercises
    ensures h.allExercisesCompleted ==> h.quizScore == 100
    ensures progress.None? ==>
      h.completedCount == 0 && h.quizScore == 0 && !h.allExercisesCompleted && !h.isCompleted && h.timeSpent == 0
    ensures progress.Some? ==> h.isCompleted == progress.value.isCompleted && h.timeSpent == progress.value.timeSpent
  {
    var total := TotalExercises(catalog, lessonId);
    var completed := CompletedCount(catalog, lessonId, progress);
    QuizScoreRange(completed, total);
    HookValues(
      total,
      completed,
      QuizScore(completed, total),
      total > 0 && completed == total,
      if progress.Some? then progress.value.isCompleted else false,
      if progress.Some? then progress.value.timeSpent else 0,
      progress.None?)
  }

  /**
   * The hook's guard for `completeLesson` agrees with the manager's, except that the
   * hook also demands at least one exercise: a catalog lesson without exercises is
   * complete for the manager but never for the hook.
   */
  lemma AllCompletedIsManagerGuard(catalog: seq<Lesson>, lessonId: string, lp: LessonProgress)
    ensures Derive(catalog, lessonId, Some(lp)).allExercisesCompleted <==>
      && lessonId in LessonIds(catalog)
      && |CatalogExercises(catalog, lessonId)| > 0
      && AllFlagged(CatalogExercises(catalog, lessonId), lp.completedExercises)
  {
    CountFlaggedAll(CatalogExercises(catalog, lessonId), lp.completedExercises);
  }

  /** `Math.floor((Date.now() - startTime) / 1000)`: whole seconds of the session. */
  function SessionSeconds(startMs: int, nowMs: int): (s: int)
    ensures s * 1000 <= nowMs - startMs < s * 1000 + 1000
    ensures nowMs >= startMs ==> s >= 0
  {
    (nowMs - startMs) / 1000
  }

  // ---------------------------------------------------------------------------
  // Reading a lesson record at different times

  /**
   * Only the `lastAccessed` stamp of a not-yet-stored record depends on the clock:
   * reading at another time gives the same outcome and the same record otherwise.
   */
  lemma ReadLessonClock(catalog: seq<Lesson>, s: Store, lessonId: string, now: string, later: string)
    ensures ReadLesson(catalog, s, lessonId, later).Ok? <==> ReadLesson(catalog, s, lessonId, now).Ok?
    ensures ReadLesson(catalog, s, lessonId, now).Ok? ==>
      ReadLesson(catalog, s, lessonId, later).value
        == ReadLesson(catalog, s, lessonId, now).value.(lastAccessed := ReadLesson(catalog, s, lessonId, later).value.lastAccessed)
  {
  }

  /** `stored` is readable and equals `local` apart from its `lastAccessed` stamp. */
  predicate Matches(stored: Result<LessonProgress>, local: LessonProgress) {
    stored.Ok? && stored.value.(lastAccessed := local.lastAccessed) == local
  }

  lemma MatchesAnyTime(catalog: seq<Lesson>, s: Store, lessonId: string, now: string, later: string, local: LessonProgress)
    requires Matches(ReadLesson(catalog, s, lessonId, now), local)
    ensures Matches(ReadLesson(catalog, s, lessonId, later), local)
  {
    ReadLessonClock(catalog, s, lessonId, now, later);
  }

  // ---------------------------------------------------------------------------
  // The hook

  class LessonView {
    const manager: ProgressManager
    const lessonId: string

    /** `Date.now()` when the hook was first rendered, in milliseconds. */
    const startTime: int

    /** The local copy; `None` until the mount effect has read it. */
    var progress: Option<LessonProgress>

    /**
     * The local copy, once loaded, is what the manager has stored for the lesson,
     * apart from the `lastAccessed` stamp.
     */
    predicate Synced()
      reads this, manager
    {
      progress.Some? ==> Matches(ReadLesson(manager.catalog, manager.store, lessonId, ""), progress.value)
    }

    constructor (manager: ProgressManager, lessonId: string, startTime: int)
      ensures this.manager == manager && this.lessonId == lessonId && this.startTime == startTime
      ensures progress.None? && Synced()
    {
      this.manager := manager;
      this.lessonId := lessonId;
      this.startTime := startTime;
      progress := None;
    }

    /** The values the hook returns on the current render. */
    function Values(): (h: HookValues)
      reads this
      ensures h.isLoading <==> progress.None?
      ensures h.totalExercises == TotalExercises(manager.catalog, lessonId)
      ensures h.completedCount == CompletedCount(manager.catalog, lessonId, progress)
      ensures h.quizScore == QuizScore(h.completedCount, h.totalExercises)
      ensures h.allExercisesCompleted <==> h.totalExercises > 0 && h.completedCount == h.totalExercises
      ensures h.isCompleted <==> progress.Some? && progress.value.isCompleted
      ensures h.timeSpent == if progress.Some? then progress.value.timeSpent else 0
    {
      Derive(manager.catalog, lessonId, progress)
    }

    /**
     * The mount effect: load the lesson's record through the manager (which writes
     * nothing). An unreadable record raises and the copy stays unloaded.
     */
    method Mount(now: string) returns (outcome: Outcome)
      requires progress.None?
      modifies this
      ensures Synced()
      ensures match ReadLesson(manager.catalog, manager.store, lessonId, now)
        case Ok(lp) => progress == Some(lp) && outcome == Done
        case Err(e) => progress.None? && outcome == Raised(e)
    {
      var r := manager.GetLessonProgress(lessonId, now);
      match r
      case Ok(lp) =>
        progress := Some(lp);
        outcome := Done;
        MatchesAnyTime(manager.catalog, manager.store, lessonId, now, "", lp);
      case Err(e) =>
        outcome := Raised(e);
    }

    /** The local answer agrees with the flag the manager has stored. */
    function IsExerciseCompleted(exerciseId: string): (b: bool)
      reads this, manager
      ensures Synced() ==>
        (b <==> progress.Some? && Flagged(ReadLesson(manager.catalog, manager.store, lessonId, "").value.completedExercises, exerciseId))
    {
      progress.Some? && Flagged(progress.value.completedExercises, exerciseId)
    }

    /**
     * `markExerciseCompleted`: ignored while loading; otherwise the manager flags the
     * exercise in storage and the local copy gets the same flag, so the two stay in step.
     */
    method MarkExerciseCompleted(exerciseId: string, now: string) returns (outcome: Outcome)
      requires Synced()
      modifies this, manager
      ensures Synced()
      ensures old(progress).None? ==> progress.None? && manager.store == old(manager.store) && outcome == Done
      ensures old(progress).Some? ==>
        && outcome == Done
        && Step(manager.store, outcome) == MarkExerciseStep(manager.catalog, old(manager.store), lessonId, exerciseId, now)
        && progress == Some(old(progress).value.(completedExercises := old(progress).value.completedExercises[exerciseId := true]))
        && IsExerciseCompleted(exerciseId)
    {
      outcome := Done;
      if progress.Some? {
        ghost var s := manager.store;
        var local := progress.value;
        MatchesAnyTime(manager.catalog, s, lessonId, "", now, local);
        ghost var stored := ReadLesson(manager.catalog, s, lessonId, now).value;
        outcome := manager.MarkExerciseCompleted(lessonId, exerciseId, now);
        progress := Some(local.(completedExercises := local.completedExercises[exerciseId := true]));
        SaveThenReadLesson(manager.catalog, s, lessonId, stored.(completedExercises := stored.completedExercises[exerciseId := true]), "");
      }
    }

    /**
     * `completeLesson`: only when loaded and every exercise of the lesson is flagged
     * locally. The manager then completes the lesson in storage; if it raises, the
     * copy is left as it was, otherwise the copy is marked completed too.
     */
    method CompleteLesson(now: string) returns (outcome: Outcome)
      requires Synced()
      modifies this, manager
      ensures Synced()
      ensures !old(Values().allExercisesCompleted) ==>
        progress == old(progress) && manager.store == old(manager.store) && outcome == Done
      ensures old(Values().allExercisesCompleted) ==>
        && Step(manager.store, outcome) == CompleteLessonStep(manager.catalog, old(manager.store), lessonId, now)
        && (outcome.Done? <==> ReadProgress(old(manager.store), now).Ok?)
        && (outcome.Done? ==> progress == Some(old(progress).value.(isCompleted := true)))
        && (outcome.Raised? ==> progress == old(progress))
    {
      outcome := Done;
      var guard := Derive(manager.catalog, lessonId, progress).allExercisesCompleted;
      if guard && progress.Some? {
        ghost var s := manager.store;
        var local := progress.value;
        MatchesAnyTime(manager.catalog, s, lessonId, "", now, local);
        ghost var stored := ReadLesson(manager.catalog, s, lessonId, now).value;
        AllCompletedIsManagerGuard(manager.catalog, lessonId, local);
        assert stored.completedExercises == local.completedExercises;
        CompleteLessonSynced(manager.catalog, s, lessonId, now, stored);
        outcome := manager.CompleteLesson(lessonId, now);
        if outcome.Done? {
          progress := Some(local.(isCompleted := true));
        }
      }
    }

    /**
     * The unmount cleanup: the whole seconds since the first render are added to both
     * records through the manager. The local copy is not touched (the view is gone).
     */
    method Teardown(nowMs: int, now: string) returns (outcome: Outcome)
      modifies manager
      ensures Step(manager.store, outcome)
           == UpdateTimeSpentStep(manager.catalog, old(manager.store), lessonId, SessionSeconds(startTime, nowMs), now)
    {
      var session := (nowMs - startTime) / 1000;
      outcome := manager.UpdateTimeSpent(lessonId, session, now);
    }
  }

  /**
   * What `completeLesson` does to a lesson whose catalog exercises are all flagged in
   * a readable stored record: it ends normally exactly when the global record is
   * readable, and the lesson record reads back as completed then, or as before when
   * it raised.
   */
  lemma CompleteLessonSynced(catalog: seq<Lesson>, s: Store, lessonId: string, now: string, lp: LessonProgress)
    requires lessonId in LessonIds(catalog)
    requires ReadLesson(catalog, s, lessonId, now) == Ok(lp)
    requires AllFlagged(CatalogExercises(catalog, lessonId), lp.completedExercises)
    ensures var step := CompleteLessonStep(catalog, s, lessonId, now);
      && (step.outcome.Done? <==> ReadProgress(s, now).Ok?)
      && (step.outcome.Done? ==> ReadLesson(catalog, step.store, lessonId, "") == Ok(lp.(isCompleted := true)))
      && (step.outcome.Raised? ==> ReadLesson(catalog, step.store, lessonId, "") == ReadLesson(catalog, s, lessonId, ""))
  {
    match ReadProgress(s, now)
    case Ok(p) =>
      CompleteLessonEffect(catalog, s, lessonId, now, "", p, lp);
    case Err(e) =>
      LessonKeyNotProgressKey(lessonId);
      if ProgressKey !in s {
        ReadLessonOtherKey(catalog, s, ProgressKey, EncodeProgress(InitialProgress(now)), lessonId, "");
      }
  }
}
