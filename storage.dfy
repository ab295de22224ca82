/**
 * The persisted form of the two progress records. Local storage holds JSON text;
 * here a stored entry is the value that text parses to, so that the shape checks of
 * reading and importing can be stated without a JSON grammar.
 */
module Storage {
  import opened Outcomes
  import opened Types

  /** A parsed JSON value: any field of an object may be missing or of the wrong kind. */
  datatype Value =
    | Null
    | Bool(b: bool)
    | Num(n: int)
    | Str(s: string)
    | Arr(items: seq<Value>)
    | Obj(fields: map<string, Value>)

  function EncodeStrings(xs: seq<string>): (vs: seq<Value>)
    ensures |vs| == |xs|
    ensures forall i | 0 <= i < |xs| :: vs[i] == Str(xs[i])
  {
    if xs == [] then [] else [Str(xs[0])] + EncodeStrings(xs[1..])
  }

  /** The strings of an array all of whose items are strings. */
  function DecodeStrings(vs: seq<Value>): (r: Option<seq<string>>)
    ensures r.Some? <==> forall i | 0 <= i < |vs| :: vs[i].Str?
    ensures r.Some? ==> |r.value| == |vs| && forall i | 0 <= i < |vs| :: r.value[i] == vs[i].s
  {
    if vs == [] then Some([])
    else if !vs[0].Str? then None
    else match DecodeStrings(vs[1..])
      case None => None
      case Some(rest) => Some([vs[0].s] + rest)
  }

  function EncodeNumbers(m: map<string, int>): map<string, Value> {
    map k | k in m :: Num(m[k])
  }

  function DecodeNumbers(fields: map<string, Value>): (r: Option<map<string, int>>)
    ensures r.Some? <==> forall k | k in fields :: fields[k].Num?
    ensures r.Some? ==> r.value.Keys == fields.Keys && forall k | k in fields :: r.value[k] == fields[k].n
  {
    if forall k | k in fields :: fields[k].Num? then Some(map k | k in fields :: fields[k].n) else None
  }

  function EncodeFlags(m: map<string, bool>): map<string, Value> {
    map k | k in m :: Bool(m[k])
  }

  function DecodeFlags(fields: map<string, Value>): (r: Option<map<string, bool>>)
    ensures r.Some? <==> forall k | k in fields :: fields[k].Bool?
    ensures r.Some? ==> r.value.Keys == fields.Keys && forall k | k in fields :: r.value[k] == fields[k].b
  {
    if forall k | k in fields :: fields[k].Bool? then Some(map k | k in fields :: fields[k].b) else None
  }

  /** `JSON.stringify` of a UserProgress record, as a parsed value. */
  function EncodeProgress(p: UserProgress): Value {
    Obj(map[
      "completedLessons" := Arr(EncodeStrings(p.completedLessons)),
      "quizScores" := Obj(EncodeNumbers(p.quizScores)),
      "lastAccessedLesson" := Str(p.lastAccessedLesson),
      "startDate" := Str(p.startDate),
      "totalTimeSpent" := Num(p.totalTimeSpent),
      "currentLesson" := Str(p.currentLesson)])
  }

  /** `JSON.stringify` of a LessonProgress record; an absent `quizScore` is left out. */
  function EncodeLesson(lp: LessonProgress): Value {
    var fields := map[
      "isCompleted" := Bool(lp.isCompleted),
      "lastAccessed" := Str(lp.lastAccessed),
      "timeSpent" := Num(lp.timeSpent),
      "completedExercises" := Obj(EncodeFlags(lp.completedExercises))];
    Obj(if lp.quizScore.Some? then fields["quizScore" := Num(lp.quizScore.value)] else fields)
  }

  /** Whether `fields` has `name` holding a value of the given kind. */
  predicate HasStr(fields: map<string, Value>, name: string) { name in fields && fields[name].Str? }
  predicate HasNum(fields: map<string, Value>, name: string) { name in fields && fields[name].Num? }
  predicate HasBool(fields: map<string, Value>, name: string) { name in fields && fields[name].Bool? }

  /** Reads a UserProgress record back; `None` when a field is missing or of the wrong kind. */
  function DecodeProgress(v: Value): (r: Option<UserProgress>)
    ensures r.Some? ==> v.Obj? && "completedLessons" in v.fields && v.fields["completedLessons"].Arr?
                        && "quizScores" in v.fields && v.fields["quizScores"].Obj?
                        && HasStr(v.fields, "startDate") && r.value.startDate == v.fields["startDate"].s
  {
    if !v.Obj? then None
    else
      var f := v.fields;
      if !("completedLessons" in f && f["completedLessons"].Arr?) then None
      else if !("quizScores" in f && f["quizScores"].Obj?) then None
      else if !(HasStr(f, "lastAccessedLesson") && HasStr(f, "startDate")
                && HasNum(f, "totalTimeSpent") && HasStr(f, "currentLesson")) then None
      else match (DecodeStrings(f["completedLessons"].items), DecodeNumbers(f["quizScores"].fields))
        case (Some(lessons), Some(scores)) =>
          Some(UserProgress(lessons, scores, f["lastAccessedLesson"].s, f["startDate"].s,
                            f["totalTimeSpent"].n, f["currentLesson"].s))
        case _ => None
  }

  /** Reads a LessonProgress record back; `None` when a field is missing or of the wrong kind. */
  function DecodeLesson(v: Value): (r: Option<LessonProgress>)
  {
    if !v.Obj? then None
    else
      var f := v.fields;
      if !(HasBool(f, "isCompleted") && HasStr(f, "lastAccessed") && HasNum(f, "timeSpent")
           && "completedExercises" in f && f["completedExercises"].Obj?) then None
      else if "quizScore" in f && !f["quizScore"].Num? then None
      else match DecodeFlags(f["completedExercises"].fields)
        case None => None
        case Some(flags) =>
          var score := if "quizScore" in f then Some(f["quizScore"].n) else None;
          Some(LessonProgress(f["isCompleted"].b, score, f["lastAccessed"].s, f["timeSpent"].n, flags))
  }

  lemma DecodeEncodeStrings(xs: seq<string>)
    ensures DecodeStrings(EncodeStrings(xs)) == Some(xs)
  {
    var r := DecodeStrings(EncodeStrings(xs));
    assert r.value == xs;
  }

  lemma DecodeEncodeNumbers(m: map<string, int>)
    ensures DecodeNumbers(EncodeNumbers(m)) == Some(m)
  {
    var r := DecodeNumbers(EncodeNumbers(m));
    assert r.value == m;
  }

  lemma DecodeEncodeFlags(m: map<string, bool>)
    ensures DecodeFlags(EncodeFlags(m)) == Some(m)
  {
    var r := DecodeFlags(EncodeFlags(m));
    assert r.value == m;
  }

  /** Saving a record and reading it back gives the same record. */
  lemma DecodeEncodeProgress(p: UserProgress)
    ensures DecodeProgress(EncodeProgress(p)) == Some(p)
  {
    DecodeEncodeStrings(p.completedLessons);
    var f := EncodeProgress(p).fields;
    DecodeEncodeNumbers(p.quizScores);
  }

  lemma DecodeEncodeLesson(lp: LessonProgress)
    ensures DecodeLesson(EncodeLesson(lp)) == Some(lp)
  {
    var f := EncodeLesson(lp).fields;
    DecodeEncodeFlags(lp.completedExercises);
  }
}
