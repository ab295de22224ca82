/**
 * The home page: three featured lesson cards built from the start of the catalog,
 * whose completion marks are filled in from storage after mounting, and the
 * statistics line computed from the catalog.
 */
module HomePage {
  import opened Outcomes
  import opened Types
  import opened Lessons
  import opened Progress
  import opened Decimal

  // ---------------------------------------------------------------------------
  // Capitalisation

  /** `toUpperCase` on one character, for the ASCII letters. */
  function UpperAscii(c: char): (u: char)
    ensures !('a' <= u <= 'z')
    ensures 'a' <= c <= 'z' ==> 'A' <= u <= 'Z' && u as int - 'A' as int == c as int - 'a' as int
    ensures !('a' <= c <= 'z') ==> u == c
  {
    if 'a' <= c <= 'z' then (c as int - 32) as char else c
  }

  /** `s.charAt(0).toUpperCase() + s.slice(1)`; the empty string stays empty. */
  function Capitalize(s: string): (r: string)
    ensures |r| == |s|
    ensures s != [] ==> r[0] == UpperAscii(s[0]) && r[1..] == s[1..]
  {
    if s == [] then [] else [UpperAscii(s[0])] + s[1..]
  }

  /** The three difficulties show as "Beginner", "Intermediate" and "Advanced". */
  lemma CapitalizedDifficulties()
    ensures Capitalize("beginner") == "Beginner"
    ensures Capitalize("intermediate") == "Intermediate"
    ensures Capitalize("advanced") == "Advanced"
  {
    assert UpperAscii('b') == 'B' && UpperAscii('i') == 'I' && UpperAscii('a') == 'A';
  }

  // ---------------------------------------------------------------------------
  // Featured lessons

  const FeaturedDescription: string := "Start your TypeScript journey with this lesson."

  datatype FeaturedLesson = FeaturedLesson(
    id: string,
    title: string,
    description: string,
    difficulty: string,
    duration: string,
    completed: bool)

  /** The card of one lesson before its completion is known. */
  function FeaturedOf(lesson: Lesson): (f: FeaturedLesson)
    ensures f.id == lesson.id && f.title == lesson.title && !f.completed
    ensures f.description == FeaturedDescription
    ensures f.difficulty == Capitalize(lesson.difficulty)
    ensures ReadDuration(f.duration) == Some(lesson.estimatedTime)
  {
    DurationReadsBack(lesson.estimatedTime);
    FeaturedLesson(lesson.id, lesson.title, FeaturedDescription, Capitalize(lesson.difficulty),
                   NatToString(lesson.estimatedTime) + " min", false)
  }

  /** The initial state: `lessons.slice(0, 3)`, each made into an uncompleted card. */
  function InitialFeatured(catalog: seq<Lesson>): (fs: seq<FeaturedLesson>)
    ensures |fs| == if |catalog| < 3 then |catalog| else 3
    ensures forall i | 0 <= i < |fs| :: fs[i] == FeaturedOf(catalog[i])
  {
    var n := if |catalog| < 3 then |catalog| else 3;
    seq(n, i requires 0 <= i < n => FeaturedOf(catalog[i]))
  }

  /** Reads a `<minutes> min` duration back into its number. */
  function ReadDuration(text: string): Option<nat> {
    var n := |text| - 4;
    if n > 0 && text[n..] == " min" && CanonicalDigits(text[..n])
    then Some(DigitsValue(text[..n]))
    else None
  }

  /** A duration written as `<minutes> min` reads back as the minutes. */
  lemma DurationReadsBack(minutes: nat)
    ensures ReadDuration(NatToString(minutes) + " min") == Some(minutes)
  {
    var digits := NatToString(minutes);
    var text := digits + " min";
    assert text[..|digits|] == digits && text[|digits|..] == " min";
    NatToStringReadsBack(minutes);
  }
  /** Only `<minutes> min` reads back as the minutes: `ReadDuration` pins the text. */
  lemma DurationTextExact(text: string, minutes: nat)
    requires ReadDuration(text) == Some(minutes)
    ensures text == NatToString(minutes) + " min"
  {
    var n := |text| - 4;
    CanonicalDigitsWritten(text[..n]);
    assert text == text[..n] + text[n..];
  }


  /**
   * The mount effect: each card's `completed` becomes the `isCompleted` of the lesson's
   * record as `getLessonProgress` reads it, in order; an unreadable record raises and
   * the whole update is lost.
   */
  function MountCompletion(catalog: seq<Lesson>, s: Store, prev: seq<FeaturedLesson>, now: string)
    : (r: Result<seq<FeaturedLesson>>)
    ensures r.Ok? <==> forall i | 0 <= i < |prev| :: ReadLesson(catalog, s, prev[i].id, now).Ok?
    ensures r.Ok? ==>
      && |r.value| == |prev|
      && forall i | 0 <= i < |prev| ::
           r.value[i] == prev[i].(completed := ReadLesson(catalog, s, prev[i].id, now).value.isCompleted)
    ensures r.Err? ==> exists i | 0 <= i < |prev| :: ReadLesson(catalog, s, prev[i].id, now) == Err(r.error)
  {
    if prev == [] then Ok([])
    else
      match ReadLesson(catalog, s, prev[0].id, now)
      case Err(e) => Err(e)
      case Ok(lp) =>
        match MountCompletion(catalog, s, prev[1..], now)
        case Err(e) => Err(e)
        case Ok(rest) =>
          assert forall i | 1 <= i < |prev| :: prev[1..][i - 1] == prev[i];
          Ok([prev[0].(completed := lp.isCompleted)] + rest)
  }

  /** With no lesson record stored yet, every card stays uncompleted. */
  lemma FreshStoreShowsNothingCompleted(catalog: seq<Lesson>, s: Store, now: string)
    requires forall i | 0 <= i < |InitialFeatured(catalog)| :: LessonKey(InitialFeatured(catalog)[i].id) !in s
    ensures MountCompletion(catalog, s, InitialFeatured(catalog), now) == Ok(InitialFeatured(catalog))
  {
    var fs := InitialFeatured(catalog);
    var r := MountCompletion(catalog, s, fs, now);
    assert r.Ok?;
    assert r.value == fs by {
      forall i | 0 <= i < |fs|
        ensures r.value[i] == fs[i]
      {
        assert !ReadLesson(catalog, s, fs[i].id, now).value.isCompleted;
      }
    }
  }

  /** The shipped catalog features its three beginner lessons. */
  lemma CatalogFeatured()
    ensures |InitialFeatured(Catalog)| == 3
    ensures forall i | 0 <= i < 3 :: InitialFeatured(Catalog)[i].id == Catalog[i].id
    ensures forall f | f in InitialFeatured(Catalog) :: f.difficulty == "Beginner" && !f.completed
  {
    CapitalizedDifficulties();
    assert Catalog[0].difficulty == "beginner" && Catalog[1].difficulty == "beginner" && Catalog[2].difficulty == "beginner";
  }

  // ---------------------------------------------------------------------------
  // Statistics

  /** `lessons.reduce((acc, lesson) => acc + lesson.exercises.length, 0)`. */
  function ExerciseTotal(ls: seq<Lesson>): (n: nat)
    ensures forall k | 0 <= k < |ls| :: |ls[k].exercises| <= n
  {
    if ls == [] then 0 else |ls[0].exercises| + ExerciseTotal(ls[1..])
  }

  /** `exercises.filter(ex => ex.type === 'multiple-choice').length`. */
  function MultipleChoiceCount(exs: seq<Exercise>): (n: nat)
    ensures n <= |exs|
  {
    if exs == [] then 0 else (if exs[0].kind == MultipleChoice then 1 else 0) + MultipleChoiceCount(exs[1..])
  }

  /** The "Quizzes" figure never exceeds the "Code Examples" figure, which counts every exercise. */
  function MultipleChoiceTotal(ls: seq<Lesson>): (n: nat)
    ensures n <= ExerciseTotal(ls)
  {
    if ls == [] then 0 else MultipleChoiceCount(ls[0].exercises) + MultipleChoiceTotal(ls[1..])
  }

  /** The four `{ label, value }` entries of the statistics line. */
  function Stats(ls: seq<Lesson>): (entries: seq<(string, string)>)
    ensures |entries| == 4
    ensures entries[0].0 == "Lessons" && ReadFigure(entries[0].1) == Some(|ls|)
    ensures entries[1].0 == "Code Examples" && ReadFigure(entries[1].1) == Some(ExerciseTotal(ls))
    ensures entries[2].0 == "Quizzes" && ReadFigure(entries[2].1) == Some(MultipleChoiceTotal(ls))
    ensures entries[3] == ("Students", "10K+")
  {
    FigureReadsBack(|ls|);
    FigureReadsBack(ExerciseTotal(ls));
    FigureReadsBack(MultipleChoiceTotal(ls));
    [ ("Lessons", NatToString(|ls|) + "+"),
      ("Code Examples", NatToString(ExerciseTotal(ls)) + "+"),
      ("Quizzes", NatToString(MultipleChoiceTotal(ls)) + "+"),
      ("Students", "10K+") ]
  }

  /** Reads a `<count>+` figure back into its number. */
  function ReadFigure(text: string): Option<nat> {
    var n := |text| - 1;
    if n > 0 && text[n] == '+' && CanonicalDigits(text[..n])
    then Some(DigitsValue(text[..n]))
    else None
  }

  /** A figure written as `<count>+` reads back as the count. */
  lemma FigureReadsBack(count: nat)
    ensures ReadFigure(NatToString(count) + "+") == Some(count)
  {
    var digits := NatToString(count);
    var text := digits + "+";
    assert text[..|digits|] == digits;
    NatToStringReadsBack(count);
  }
  /** Only `<count>+` reads back as the count: `ReadFigure` pins the text. */
  lemma FigureTextExact(text: string, count: nat)
    requires ReadFigure(text) == Some(count)
    ensures text == NatToString(count) + "+"
  {
    var n := |text| - 1;
    CanonicalDigitsWritten(text[..n]);
    assert text == text[..n] + [text[n]];
  }


  /** One multiple-choice exercise followed by one coding exercise. */
  predicate TwoExerciseShape(lesson: Lesson) {
    |lesson.exercises| == 2 && lesson.exercises[0].kind == MultipleChoice && lesson.exercises[1].kind == Coding
  }

  /** Lessons of that shape give two exercises and one multiple-choice exercise each. */
  lemma {:induction false} TwoExerciseTotals(ls: seq<Lesson>)
    requires forall k | 0 <= k < |ls| :: TwoExerciseShape(ls[k])
    ensures ExerciseTotal(ls) == 2 * |ls| && MultipleChoiceTotal(ls) == |ls|
  {
    if ls != [] {
      assert TwoExerciseShape(ls[0]);
      var exs := ls[0].exercises;
      assert MultipleChoiceCount(exs[1..][1..]) == 0;
      assert MultipleChoiceCount(exs) == 1;
      TwoExerciseTotals(ls[1..]);
    }
  }

  /** The first lesson has two multiple-choice exercises; every later one has the two-exercise shape. */
  lemma CatalogShape()
    ensures |Catalog[0].exercises| == 2 && MultipleChoiceCount(Catalog[0].exercises) == 2
    ensures forall k | 1 <= k < |Catalog| :: TwoExerciseShape(Catalog[k])
  {
    var exs := Catalog[0].exercises;
    assert exs[0].kind == MultipleChoice && exs[1].kind == MultipleChoice;
    assert MultipleChoiceCount(exs[1..][1..]) == 0;
  }

  /** The totals of eight lessons shaped like the shipped catalog. */
  lemma CatalogShapedTotals(ls: seq<Lesson>)
    requires |ls| == 8 && |ls[0].exercises| == 2 && MultipleChoiceCount(ls[0].exercises) == 2
    requires forall k | 1 <= k < |ls| :: TwoExerciseShape(ls[k])
    ensures ExerciseTotal(ls) == 16 && MultipleChoiceTotal(ls) == 9
  {
    var rest := ls[1..];
    assert forall k | 0 <= k < |rest| :: TwoExerciseShape(rest[k]) by {
      forall k | 0 <= k < |rest|
        ensures TwoExerciseShape(rest[k])
      {
        assert rest[k] == ls[k + 1];
      }
    }
    TwoExerciseTotals(rest);
  }

  /** The three figures the shipped catalog produces, written out. */
  lemma FigureTexts()
    ensures NatToString(8) + "+" == "8+" && NatToString(16) + "+" == "16+" && NatToString(9) + "+" == "9+"
  {
    assert DigitChar(1) == '1' && DigitChar(6) == '6' && DigitChar(8) == '8' && DigitChar(9) == '9';
    assert NatToString(16) == NatToString(1) + [DigitChar(6)];
  }

  /** The statistics line for eight lessons, sixteen exercises and nine multiple-choice ones. */
  lemma StatsOfTotals(ls: seq<Lesson>)
    requires |ls| == 8 && ExerciseTotal(ls) == 16 && MultipleChoiceTotal(ls) == 9
    ensures Stats(ls) == [("Lessons", "8+"), ("Code Examples", "16+"), ("Quizzes", "9+"), ("Students", "10K+")]
  {
    FigureTexts();
  }

  /** The shipped catalog shows "8+" lessons, "16+" code examples and "9+" quizzes. */
  lemma CatalogStats()
    ensures Stats(Catalog) == [("Lessons", "8+"), ("Code Examples", "16+"), ("Quizzes", "9+"), ("Students", "10K+")]
  {
    CatalogShape();
    CatalogShapedTotals(Catalog);
    StatsOfTotals(Catalog);
  }
}
