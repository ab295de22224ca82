/**
 * The progress manager: one global UserProgress record and one LessonProgress record
 * per lesson, kept in a string-keyed store, and the business rules applied to them.
 * Every operation is a read-modify-write of the store. Each one has a step function
 * on store values, which the lemmas below are about, and a method of `ProgressManager`
 * that performs it step by step and is proved to agree with its step function.
 */
module Progress {
  import opened Outcomes
  import opened Types
  import opened Lessons
  import opened Storage

  /** The key-value medium: key to parsed stored value. */
  type Store = map<string, Value>

  /** Key of the global record. */
  const ProgressKey: string := "typescript-tutor-progress"

  /** Prefix of the per-lesson keys. */
  const LessonProgressKey: string := "typescript-tutor-lesson-progress"

  function LessonKey(lessonId: string): string {
    LessonProgressKey + "-" + lessonId
  }

  /** What an operation left in the store and how it ended. */
  datatype Step = Step(store: Store, outcome: Outcome)

  /** What `JSON.parse` made of the text given to import: nothing, or a value. */
  datatype ImportInput = Unparsable | Parsed(value: Value)

  /** The check of `validateProgress` that rejected a candidate record. */
  datatype ValidationError =
    | NotAnObject              // reading a field of `null` raises
    | CompletedLessonsNotArray
    | QuizScoresNotObject
    | StartDateNotString

  // ---------------------------------------------------------------------------
  // Reading the two records

  /** The record `initializeProgress` creates; `now` is the ISO start timestamp. */
  function InitialProgress(now: string): (p: UserProgress)
    ensures p.completedLessons == [] && p.quizScores == map[] && p.totalTimeSpent == 0
    ensures p.startDate == now && p.lastAccessedLesson == "" && p.currentLesson == ""
    ensures ValidateProgress(EncodeProgress(p)).None? <==> now != ""
  {
    UserProgress([], map[], "", now, 0, "")
  }

  /** The value `getProgress` returns from store `s`. */
  function ReadProgress(s: Store, now: string): (r: Result<UserProgress>)
    ensures ProgressKey !in s ==> r == Ok(InitialProgress(now))
    ensures ProgressKey in s ==> (r.Ok? <==> DecodeProgress(s[ProgressKey]).Some?)
    ensures r.Err? ==> r.error == CorruptData(ProgressKey)
  {
    if ProgressKey !in s then Ok(InitialProgress(now))
    else match DecodeProgress(s[ProgressKey])
      case Some(p) => Ok(p)
      case None => Err(CorruptData(ProgressKey))
  }

  /** The store after `getProgress`: a missing global record is created and saved. */
  function StoreAfterReadProgress(s: Store, now: string): (s': Store)
    ensures ProgressKey in s'
    ensures ProgressKey in s ==> s' == s
    ensures ReadProgress(s', now) == ReadProgress(s, now)
  {
    if ProgressKey in s then s
    else
      DecodeEncodeProgress(InitialProgress(now));
      s[ProgressKey := EncodeProgress(InitialProgress(now))]
  }

  function ExerciseIdSet(exs: seq<Exercise>): set<string> {
    set ex | ex in exs :: ex.id
  }

  /** Every exercise id of `exs` mapped to false. */
  function ClearedFlags(exs: seq<Exercise>): map<string, bool> {
    map id | id in ExerciseIdSet(exs) :: false
  }

  /** The record `initializeLessonProgress` creates; the flags come from the catalog. */
  function InitialLessonProgress(catalog: seq<Lesson>, lessonId: string, now: string): (lp: LessonProgress)
    ensures !lp.isCompleted && lp.quizScore.None? && lp.timeSpent == 0 && lp.lastAccessed == now
    ensures lessonId !in LessonIds(catalog) ==> lp.completedExercises == map[]
  {
    var flags := match FindLesson(catalog, lessonId)
      case None => map[]
      case Some(lesson) => ClearedFlags(lesson.exercises);
    LessonProgress(false, None, now, 0, flags)
  }

  /** The value `getLessonProgress` returns from store `s`; it never writes the store. */
  function ReadLesson(catalog: seq<Lesson>, s: Store, lessonId: string, now: string): (r: Result<LessonProgress>)
    ensures LessonKey(lessonId) !in s ==> r == Ok(InitialLessonProgress(catalog, lessonId, now))
    ensures LessonKey(lessonId) in s ==> (r.Ok? <==> DecodeLesson(s[LessonKey(lessonId)]).Some?)
    ensures r.Err? ==> r.error == CorruptData(LessonKey(lessonId))
  {
    var key := LessonKey(lessonId);
    if key !in s then Ok(InitialLessonProgress(catalog, lessonId, now))
    else match DecodeLesson(s[key])
      case Some(lp) => Ok(lp)
      case None => Err(CorruptData(key))
  }

  /** `lesson.exercises.every(ex => completedExercises[ex.id])`. */
  predicate AllFlagged(exs: seq<Exercise>, flags: map<string, bool>) {
    forall ex | ex in exs :: Flagged(flags, ex.id)
  }

  // ---------------------------------------------------------------------------
  // The operations as steps on the store

  /** `markExerciseCompleted`: raises, writing nothing, or rewrites the lesson's key and no other. */
  function MarkExerciseStep(catalog: seq<Lesson>, s: Store, lessonId: string, exerciseId: string, now: string): (st: Step)
    ensures st.outcome.Raised? <==> ReadLesson(catalog, s, lessonId, now).Err?
    ensures st.outcome.Raised? ==> st.store == s
    ensures st.outcome.Done? ==>
      LessonKey(lessonId) in st.store && st.store == s[LessonKey(lessonId) := st.store[LessonKey(lessonId)]]
  {
    match ReadLesson(catalog, s, lessonId, now)
    case Err(e) => Step(s, Raised(e))
    case Ok(lp) =>
      var marked := lp.(completedExercises := lp.completedExercises[exerciseId := true]);
      Step(s[LessonKey(lessonId) := EncodeLesson(marked)], Done)
  }

  /** `completeLesson`: an unknown lesson is a no-op, and a completion that raises writes nothing. */
  function CompleteLessonStep(catalog: seq<Lesson>, s: Store, lessonId: string, now: string): (st: Step)
    ensures lessonId !in LessonIds(catalog) ==> st == Step(s, Done)
    ensures st.outcome.Raised? ==> st.store == s
  {
    match FindLesson(catalog, lessonId)
    case None => Step(s, Done)
    case Some(lesson) =>
      match ReadLesson(catalog, s, lessonId, now)
      case Err(e) => Step(s, Raised(e))
      case Ok(lp) =>
        if !AllFlagged(lesson.exercises, lp.completedExercises) then Step(s, Done)
        else
          var s1 := StoreAfterReadProgress(s, now);
          match ReadProgress(s, now)
          case Err(e) => Step(s1, Raised(e))
          case Ok(p) =>
            var s2 := if lessonId in p.completedLessons then s1
                      else s1[ProgressKey := EncodeProgress(p.(completedLessons := p.completedLessons + [lessonId]))];
            Step(s2[LessonKey(lessonId) := EncodeLesson(lp.(isCompleted := true))], Done)
  }

  /**
   * `saveQuizScore`: an unreadable global record raises before anything is written;
   * a normal end leaves both records stored.
   */
  function SaveQuizScoreStep(catalog: seq<Lesson>, s: Store, lessonId: string, score: int, now: string): (st: Step)
    ensures ReadProgress(s, now).Err? ==> st == Step(s, Raised(CorruptData(ProgressKey)))
    ensures st.outcome.Done? ==> ProgressKey in st.store && LessonKey(lessonId) in st.store
  {
    var s1 := StoreAfterReadProgress(s, now);
    match ReadProgress(s, now)
    case Err(e) => Step(s1, Raised(e))
    case Ok(p) =>
      var s2 := s1[ProgressKey := EncodeProgress(p.(quizScores := p.quizScores[lessonId := score]))];
      match ReadLesson(catalog, s2, lessonId, now)
      case Err(e) => Step(s2, Raised(e))
      case Ok(lp) => Step(s2[LessonKey(lessonId) := EncodeLesson(lp.(quizScore := Some(score)))], Done)
  }

  /**
   * `updateTimeSpent`: an unreadable global record raises before anything is written;
   * a normal end leaves both records stored.
   */
  function UpdateTimeSpentStep(catalog: seq<Lesson>, s: Store, lessonId: string, delta: int, now: string): (st: Step)
    ensures ReadProgress(s, now).Err? ==> st == Step(s, Raised(CorruptData(ProgressKey)))
    ensures st.outcome.Done? ==> ProgressKey in st.store && LessonKey(lessonId) in st.store
  {
    var s1 := StoreAfterReadProgress(s, now);
    match ReadProgress(s, now)
    case Err(e) => Step(s1, Raised(e))
    case Ok(p) =>
      var s2 := s1[ProgressKey := EncodeProgress(WithTimeAdded(p, delta))];
      match ReadLesson(catalog, s2, lessonId, now)
      case Err(e) => Step(s2, Raised(e))
      case Ok(lp) => Step(s2[LessonKey(lessonId) := EncodeLesson(WithLessonTimeAdded(lp, delta))], Done)
  }

  /** The global record with `delta` seconds added to its total. */
  function WithTimeAdded(p: UserProgress, delta: int): UserProgress
  {
    p.(totalTimeSpent := p.totalTimeSpent + delta)
  }

  /** A lesson record with `delta` seconds added to its time. */
  function WithLessonTimeAdded(lp: LessonProgress, delta: int): LessonProgress
  {
    lp.(timeSpent := lp.timeSpent + delta)
  }

  /** What `exportProgress` returns: the global record, serialised. */
  function Exported(s: Store, now: string): Result<Value> {
    match ReadProgress(s, now)
    case Err(e) => Err(e)
    case Ok(p) => Ok(EncodeProgress(p))
  }

  /**
   * `validateProgress`: checks, in this order, that `completedLessons` is an array,
   * that `quizScores` is a non-null object (an array passes too) and that
   * `startDate` is a non-empty string. Nothing else is checked.
   */
  function ValidateProgress(v: Value): (r: Option<ValidationError>)
    ensures r.None? <==>
      && v.Obj?
      && "completedLessons" in v.fields && v.fields["completedLessons"].Arr?
      && "quizScores" in v.fields && (v.fields["quizScores"].Obj? || v.fields["quizScores"].Arr?)
      && HasStr(v.fields, "startDate") && v.fields["startDate"].s != ""
    ensures r == Some(NotAnObject) <==> v.Null?
  {
    if v.Null? then Some(NotAnObject)
    else
      var f := if v.Obj? then v.fields else map[];
      if "completedLessons" !in f || !f["completedLessons"].Arr? then Some(CompletedLessonsNotArray)
      else if "quizScores" !in f || f["quizScores"].Null? || !(f["quizScores"].Obj? || f["quizScores"].Arr?) then
        Some(QuizScoresNotObject)
      else if "startDate" !in f || !f["startDate"].Str? || f["startDate"].s == "" then Some(StartDateNotString)
      else None
  }

  predicate ImportAccepted(input: ImportInput) {
    input.Parsed? && ValidateProgress(input.value).None?
  }

  /** The store after `importProgress`: the candidate replaces the global record only if accepted. */
  function StoreAfterImport(s: Store, input: ImportInput): Store {
    if ImportAccepted(input) then s[ProgressKey := input.value] else s
  }

  // ---------------------------------------------------------------------------
  // The manager

  class ProgressManager {
    /** The lesson catalog the completion rules consult. */
    const catalog: seq<Lesson>

    /** The local storage medium. */
    var store: Store

    constructor (initial: Store)
      ensures catalog == Catalog && store == initial
    {
      catalog := Catalog;
      store := initial;
    }

    method GetProgress(now: string) returns (r: Result<UserProgress>)
      modifies this
      ensures r == ReadProgress(old(store), now)
      ensures store == StoreAfterReadProgress(old(store), now)
    {
      if ProgressKey !in store {
        var p := InitializeProgress(now);
        return Ok(p);
      }
      var decoded := DecodeProgress(store[ProgressKey]);
      if decoded.None? {
        return Err(CorruptData(ProgressKey));
      }
      r := Ok(decoded.value);
    }

    method GetLessonProgress(lessonId: string, now: string) returns (r: Result<LessonProgress>)
      ensures r == ReadLesson(catalog, store, lessonId, now)
    {
      var key := LessonKey(lessonId);
      if key !in store {
        var lp := InitializeLessonProgress(catalog, lessonId, now);
        return Ok(lp);
      }
      var decoded := DecodeLesson(store[key]);
      if decoded.None? {
        return Err(CorruptData(key));
      }
      r := Ok(decoded.value);
    }

    method SaveProgress(progress: UserProgress)
      modifies this
      ensures store == old(store)[ProgressKey := EncodeProgress(progress)]
    {
      store := store[ProgressKey := EncodeProgress(progress)];
    }

    method SaveLessonProgress(lessonId: string, progress: LessonProgress)
      modifies this
      ensures store == old(store)[LessonKey(lessonId) := EncodeLesson(progress)]
    {
      store := store[LessonKey(lessonId) := EncodeLesson(progress)];
    }

    method MarkExerciseCompleted(lessonId: string, exerciseId: string, now: string) returns (outcome: Outcome)
      modifies this
      ensures Step(store, outcome) == MarkExerciseStep(catalog, old(store), lessonId, exerciseId, now)
    {
      var read := GetLessonProgress(lessonId, now);
      if read.Err? {
        return Raised(read.error);
      }
      var lessonProgress := read.value;
      lessonProgress := lessonProgress.(completedExercises := lessonProgress.completedExercises[exerciseId := true]);
      SaveLessonProgress(lessonId, lessonProgress);
      outcome := Done;
    }

    method IsExerciseCompleted(lessonId: string, exerciseId: string, now: string) returns (r: Result<bool>)
      ensures r.Ok? <==> ReadLesson(catalog, store, lessonId, now).Ok?
      ensures r.Ok? ==> (r.value <==> Flagged(ReadLesson(catalog, store, lessonId, now).value.completedExercises, exerciseId))
    {
      var read := GetLessonProgress(lessonId, now);
      if read.Err? {
        return Err(read.error);
      }
      var flags := read.value.completedExercises;
      r := Ok(exerciseId in flags && flags[exerciseId]);
    }

    method CompleteLesson(lessonId: string, now: string) returns (outcome: Outcome)
      modifies this
      ensures Step(store, outcome) == CompleteLessonStep(catalog, old(store), lessonId, now)
    {
      var lesson := FindLesson(catalog, lessonId);
      if lesson.None? {
        return Done;
      }
      var read := GetLessonProgress(lessonId, now);
      if read.Err? {
        return Raised(read.error);
      }
      var lessonProgress := read.value;
      if !AllFlagged(lesson.value.exercises, lessonProgress.completedExercises) {
        return Done;
      }
      var readGlobal := GetProgress(now);
      if readGlobal.Err? {
        return Raised(readGlobal.error);
      }
      var progress := readGlobal.value;
      if lessonId !in progress.completedLessons {
        progress := progress.(completedLessons := progress.completedLessons + [lessonId]);
        SaveProgress(progress);
      }
      lessonProgress := lessonProgress.(isCompleted := true);
      SaveLessonProgress(lessonId, lessonProgress);
      outcome := Done;
    }

    method SaveQuizScore(lessonId: string, score: int, now: string) returns (outcome: Outcome)
      modifies this
      ensures Step(store, outcome) == SaveQuizScoreStep(catalog, old(store), lessonId, score, now)
    {
      var readGlobal := GetProgress(now);
      if readGlobal.Err? {
        return Raised(readGlobal.error);
      }
      var progress := readGlobal.value;
      progress := progress.(quizScores := progress.quizScores[lessonId := score]);
      SaveProgress(progress);
      var read := GetLessonProgress(lessonId, now);
      if read.Err? {
        return Raised(read.error);
      }
      var lessonProgress := read.value.(quizScore := Some(score));
      SaveLessonProgress(lessonId, lessonProgress);
      outcome := Done;
    }

    method UpdateTimeSpent(lessonId: string, timeSpent: int, now: string) returns (outcome: Outcome)
      modifies this
      ensures Step(store, outcome) == UpdateTimeSpentStep(catalog, old(store), lessonId, timeSpent, now)
    {
      var readGlobal := GetProgress(now);
      if readGlobal.Err? {
        return Raised(readGlobal.error);
      }
      var progress := readGlobal.value;
      progress := WithTimeAdded(progress, timeSpent);
      SaveProgress(progress);
      var read := GetLessonProgress(lessonId, now);
      if read.Err? {
        return Raised(read.error);
      }
      var lessonProgress := read.value;
      lessonProgress := WithLessonTimeAdded(lessonProgress, timeSpent);
      SaveLessonProgress(lessonId, lessonProgress);
      outcome := Done;
    }

    method ExportProgress(now: string) returns (r: Result<Value>)
      modifies this
      ensures r == Exported(old(store), now)
      ensures store == StoreAfterReadProgress(old(store), now)
    {
      var read := GetProgress(now);
      if read.Err? {
        return Err(read.error);
      }
      r := Ok(EncodeProgress(read.value));
    }

    method ImportProgress(input: ImportInput) returns (ok: bool)
      modifies this
      ensures ok == ImportAccepted(input)
      ensures store == StoreAfterImport(old(store), input)
    {
      if input.Unparsable? {
        return false;
      }
      var invalid := ValidateProgress(input.value);
      if invalid.Some? {
        return false;
      }
      store := store[ProgressKey := input.value];
      ok := true;
    }

    method InitializeProgress(now: string) returns (p: UserProgress)
      modifies this
      ensures p == InitialProgress(now)
      ensures store == old(store)[ProgressKey := EncodeProgress(p)]
    {
      p := UserProgress([], map[], "", now, 0, "");
      SaveProgress(p);
    }

    static method InitializeLessonProgress(catalog: seq<Lesson>, lessonId: string, now: string) returns (lp: LessonProgress)
      ensures lp == InitialLessonProgress(catalog, lessonId, now)
    {
      var lesson := FindLesson(catalog, lessonId);
      var completedExercises: map<string, bool> := map[];
      if lesson.Some? {
        completedExercises := ClearExerciseFlags(lesson.value.exercises);
      }
      lp := LessonProgress(false, None, now, 0, completedExercises);
    }

    /** The `forEach` of `initializeLessonProgress`: one false flag per exercise, in turn. */
    static method ClearExerciseFlags(exercises: seq<Exercise>) returns (completedExercises: map<string, bool>)
      ensures completedExercises == ClearedFlags(exercises)
    {
      completedExercises := map[];
      var i := 0;
      while i < |exercises|
        invariant 0 <= i <= |exercises|
        invariant completedExercises == ClearedFlags(exercises[..i])
      {
        assert ExerciseIdSet(exercises[..i + 1]) == ExerciseIdSet(exercises[..i]) + {exercises[i].id} by {
          assert exercises[..i + 1] == exercises[..i] + [exercises[i]];
        }
        completedExercises := completedExercises[exercises[i].id := false];
        i := i + 1;
      }
      assert exercises[..i] == exercises;
    }
  }
}
