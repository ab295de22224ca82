/** The record shapes of the tutor: catalog entries and the two progress records. */
module Types {
  import opened Outcomes

  /** The three exercise kinds a catalog entry may declare. */
  datatype ExerciseKind = Quiz | Coding | MultipleChoice

  /** One gradable question of a lesson. `options` and `placeholder` are optional fields. */
  datatype Exercise = Exercise(
    id: string,
    kind: ExerciseKind,
    question: string,
    options: Option<seq<string>>,
    correctAnswer: string,
    explanation: string,
    placeholder: Option<string>)

  /**
   * A catalog lesson. `difficulty` is kept as the string the page code sees at run time;
   * the declared type allows only the three values of `KnownDifficulty`.
   */
  datatype Lesson = Lesson(
    id: string,
    title: string,
    content: string,
    difficulty: string,
    prerequisites: seq<string>,
    exercises: seq<Exercise>,
    estimatedTime: nat,
    order: int)

  /** The values the declared difficulty type admits. */
  predicate KnownDifficulty(d: string) {
    d == "beginner" || d == "intermediate" || d == "advanced"
  }

  /** The single global progress record. */
  datatype UserProgress = UserProgress(
    completedLessons: seq<string>,
    quizScores: map<string, int>,
    lastAccessedLesson: string,
    startDate: string,
    totalTimeSpent: int,
    currentLesson: string)

  /** The per-lesson progress record; `quizScore` is an optional field. */
  datatype LessonProgress = LessonProgress(
    isCompleted: bool,
    quizScore: Option<int>,
    lastAccessed: string,
    timeSpent: int,
    completedExercises: map<string, bool>)

  /** Truthiness of `flags[id]`: a missing key reads as `undefined`, which is falsy. */
  predicate Flagged(flags: map<string, bool>, id: string) {
    id in flags && flags[id]
  }
}
