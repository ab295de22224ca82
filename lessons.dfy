/**
 * The lesson catalog: a constant array of eight lessons with two exercises each,
 * and the well-formedness facts that the completion rules rely on.
 */
module Lessons {
  import opened Outcomes
  import opened Types

  function MultipleChoiceExercise(id: string, question: string, options: seq<string>,
                                  correctAnswer: string, explanation: string): Exercise
  {
    Exercise(id, MultipleChoice, question, Some(options), correctAnswer, explanation, None)
  }

  function CodingExercise(id: string, question: string, correctAnswer: string,
                          explanation: string, placeholder: string): Exercise
  {
    Exercise(id, Coding, question, None, correctAnswer, explanation, Some(placeholder))
  }

  /** The `lessons` array, in array order. */
  const Catalog: seq<Lesson> := [Lesson1, Lesson2, Lesson3, Lesson4, Lesson5, Lesson6, Lesson7, Lesson8]

  // TypeScript Fundamentals
  const Lesson1: Lesson :=
    Lesson("intro-to-typescript", "Introduction to TypeScript",
    "What is TypeScript and Why Use It?", "beginner", [],
    [ MultipleChoiceExercise("intro-1", "What is TypeScript?",
        ["A JavaScript framework", "A typed superset of JavaScript", "A database", "A CSS preprocessor"],
        "A typed superset of JavaScript",
        "TypeScript is a typed superset of JavaScript that compiles to plain JavaScript."),
      MultipleChoiceExercise("intro-2", "Why use TypeScript?",
        ["For static typing and better tooling", "To make websites faster", "To style HTML", "To manage databases"],
        "For static typing and better tooling",
        "TypeScript provides static typing and improved developer tooling.") ],
    10, 1)

  const Lesson2: Lesson :=
    Lesson("installing-typescript", "Installing TypeScript & tsconfig.json",
    "How to install TypeScript and configure tsconfig.json.", "beginner", ["intro-to-typescript"],
    [ MultipleChoiceExercise("install-1", "Which command installs TypeScript globally?",
        ["npm install typescript", "npm install -g typescript", "npm install ts", "npm install -g tsconfig"],
        "npm install -g typescript",
        "The -g flag installs TypeScript globally."),
      CodingExercise("install-2",
        "Write the minimal tsconfig.json to compile all .ts files in the src folder.",
        TsconfigAnswer,
        "The include array specifies which files to compile.",
        TsconfigAnswer) ],
    10, 2)

  const Lesson3: Lesson :=
    Lesson("basic-types", "Basic Types in TypeScript",
    "Covers string, number, boolean, null, undefined, any, unknown, void, never.", "beginner",
    ["installing-typescript"],
    [ MultipleChoiceExercise("basic-1", "Which of these is NOT a basic type in TypeScript?",
        ["number", "string", "boolean", "object"],
        "object",
        "object is a more general type; number, string, and boolean are basic types."),
      CodingExercise("basic-2", "Declare a variable of type boolean and set it to true.",
        "let isActive: boolean = true;",
        "Use let isActive: boolean = true;",
        "let isActive: boolean = true;") ],
    10, 3)

  // Intermediate TypeScript
  const Lesson4: Lesson :=
    Lesson("interfaces-vs-type-aliases", "Interfaces vs. Type Aliases (Deep Dive)",
    "When to use type vs interface, extending and merging interfaces.", "intermediate",
    ["basic-types"],
    [ MultipleChoiceExercise("inter-1", "Which can be merged by declaration: interface or type alias?",
        ["interface", "type alias", "both", "neither"],
        "interface",
        "Interfaces can be merged by declaration, type aliases cannot."),
      CodingExercise("inter-2", "Create an interface Person with a name (string) and age (number).",
        "interface Person { name: string; age: number; }",
        "Use interface Person { name: string; age: number; }",
        "interface Person { name: string; age: number; }") ],
    12, 4)

  const Lesson5: Lesson :=
    Lesson("union-intersection-types", "Union and Intersection Types",
    "Union (|) and Intersection (&) types, pattern matching using discriminated unions.",
    "intermediate", ["interfaces-vs-type-aliases"],
    [ MultipleChoiceExercise("union-1", "What does the | operator do in TypeScript?",
        ["Creates a union type", "Creates an intersection type", "Performs a bitwise OR", "Declares a tuple"],
        "Creates a union type",
        "The | operator creates a union type."),
      CodingExercise("union-2", "Declare a variable that can be a string or a number.",
        "let value: string | number;",
        "Use let value: string | number;",
        "let value: string | number;") ],
    12, 5)

  // Advanced TypeScript
  const Lesson6: Lesson :=
    Lesson("advanced-generics", "Advanced Generics",
    "Conditional generics, default generic parameters, generic constraints.", "advanced",
    ["union-intersection-types"],
    [ MultipleChoiceExercise("advgen-1", "What does <T extends U> mean in a generic?",
        ["T must be a subtype of U", "T is always a string", "U is a function", "T is a number"],
        "T must be a subtype of U",
        "The extends keyword constrains T to types assignable to U."),
      CodingExercise("advgen-2", "Write a generic function that returns its argument.",
        "function identity<T>(arg: T): T { return arg; }",
        "Use function identity<T>(arg: T): T { return arg; }",
        "function identity<T>(arg: T): T { return arg; }") ],
    15, 6)

  const Lesson7: Lesson :=
    Lesson("mapped-types", "Mapped Types",
    "Mapped types, readonly, optional, mapping over unions.", "advanced",
    ["advanced-generics"],
    [ MultipleChoiceExercise("mapped-1", "What does [K in keyof T] do?",
        ["Iterates over all keys of T", "Creates a tuple", "Declares a function", "None of the above"],
        "Iterates over all keys of T",
        "It creates a mapped type by iterating over all keys of T."),
      CodingExercise("mapped-2", "Create a mapped type that makes all properties of T readonly.",
        "type ReadonlyType<T> = { readonly [P in keyof T]: T[P]; };",
        "Use type ReadonlyType<T> = { readonly [P in keyof T]: T[P]; };",
        "type ReadonlyType<T> = { readonly [P in keyof T]: T[P]; };") ],
    15, 7)

  // Bonus Modules (the record itself says "beginner")
  const Lesson8: Lesson :=
    Lesson("typescript-with-node", "Using TypeScript with Node.js",
    "How to use TypeScript in a Node.js project.", "beginner",
    ["basic-types"],
    [ MultipleChoiceExercise("node-1", "Which file extension is used for TypeScript files?",
        [".js", ".ts", ".jsx", ".tsx"],
        ".ts",
        "TypeScript files use the .ts extension."),
      CodingExercise("node-2", "Write a simple TypeScript function that returns the sum of two numbers.",
        "function sum(a: number, b: number): number { return a + b; }",
        "Use function sum(a: number, b: number): number { return a + b; }",
        "function sum(a: number, b: number): number { return a + b; }") ],
    10, 8)

  /** The expected answer (and starter text) of exercise install-2, a three-line JSON text. */
  const TsconfigAnswer: string :=
    "{\n  \"compilerOptions\": { \"outDir\": \"./dist\" },\n  \"include\": [\"src/" + "**" + "/" + "*\"]\n}"

  /** The catalog's lesson ids, in array order. */
  function LessonIds(ls: seq<Lesson>): (ids: seq<string>)
    ensures |ids| == |ls|
    ensures forall i | 0 <= i < |ls| :: ids[i] == ls[i].id
  {
    if ls == [] then [] else [ls[0].id] + LessonIds(ls[1..])
  }

  function ExerciseIds(exs: seq<Exercise>): (ids: seq<string>)
    ensures |ids| == |exs|
    ensures forall i | 0 <= i < |exs| :: ids[i] == exs[i].id
  {
    if exs == [] then [] else [exs[0].id] + ExerciseIds(exs[1..])
  }

  /** The ids of every exercise of every lesson, lesson by lesson. */
  function AllExerciseIds(ls: seq<Lesson>): seq<string>
  {
    if ls == [] then [] else ExerciseIds(ls[0].exercises) + AllExerciseIds(ls[1..])
  }

  predicate Distinct(xs: seq<string>) {
    forall i, j | 0 <= i < j < |xs| :: xs[i] != xs[j]
  }

  /** A multiple-choice exercise offers its answer; a coding one has no options and starts from its answer. */
  predicate ExerciseWellFormed(ex: Exercise) {
    && (ex.kind == MultipleChoice ==> ex.options.Some? && ex.correctAnswer in ex.options.value)
    && (ex.kind == Coding ==> ex.options.None? && ex.placeholder == Some(ex.correctAnswer))
  }

  /** Every prerequisite of lesson `i` names a lesson placed before it. */
  predicate PrerequisitesEarlier(ls: seq<Lesson>, i: nat)
    requires i < |ls|
  {
    forall p | p in ls[i].prerequisites :: exists j | 0 <= j < i :: ls[j].id == p
  }

  predicate LessonWellFormed(ls: seq<Lesson>, i: nat)
    requires i < |ls|
  {
    && KnownDifficulty(ls[i].difficulty)
    && ls[i].order == i + 1
    && |ls[i].exercises| > 0
    && PrerequisitesEarlier(ls, i)
    && (forall ex | ex in ls[i].exercises :: ExerciseWellFormed(ex))
  }

  /** The facts about the catalog that the progress rules and the pages depend on. */
  predicate WellFormedCatalog(ls: seq<Lesson>) {
    && Distinct(LessonIds(ls))
    && Distinct(AllExerciseIds(ls))
    && (forall i | 0 <= i < |ls| :: LessonWellFormed(ls, i))
  }

  /** The exercise ids of each catalog lesson, lesson by lesson. */
  const CatalogExerciseIds: seq<seq<string>> := [
    ["intro-1", "intro-2"], ["install-1", "install-2"], ["basic-1", "basic-2"],
    ["inter-1", "inter-2"], ["union-1", "union-2"], ["advgen-1", "advgen-2"],
    ["mapped-1", "mapped-2"], ["node-1", "node-2"]]

  function Flatten(xss: seq<seq<string>>): seq<string> {
    if xss == [] then [] else xss[0] + Flatten(xss[1..])
  }

  /** Collecting the ids lesson by lesson is flattening the per-lesson id lists. */
  lemma {:induction false} AllExerciseIdsFlatten(ls: seq<Lesson>, perLesson: seq<seq<string>>)
    requires |ls| == |perLesson|
    requires forall k | 0 <= k < |ls| :: ExerciseIds(ls[k].exercises) == perLesson[k]
    ensures AllExerciseIds(ls) == Flatten(perLesson)
  {
    if ls != [] {
      AllExerciseIdsFlatten(ls[1..], perLesson[1..]);
    }
  }

  lemma CatalogExerciseIdsPerLesson()
    ensures |Catalog| == |CatalogExerciseIds|
    ensures forall k | 0 <= k < |Catalog| :: ExerciseIds(Catalog[k].exercises) == CatalogExerciseIds[k]
  {
  }

  /** First, fourth and last character of an id, packed into one number. */
  function IdKey(id: string): int {
    if |id| < 4 then 0 else (id[0] as int) * 65536 + (id[3] as int) * 256 + (id[|id| - 1] as int)
  }

  /** Every exercise id of the catalog, in order. */
  const CatalogExerciseIdList: seq<string> := [
    "intro-1", "intro-2", "install-1", "install-2", "basic-1", "basic-2", "inter-1", "inter-2",
    "union-1", "union-2", "advgen-1", "advgen-2", "mapped-1", "mapped-2", "node-1", "node-2"]

  lemma CatalogExerciseIdsFlat()
    ensures Flatten(CatalogExerciseIds) == CatalogExerciseIdList
  {
    var xss := CatalogExerciseIds;
    assert Flatten(xss[7..]) == xss[7];
    assert Flatten(xss[6..]) == xss[6] + xss[7];
    assert Flatten(xss[5..]) == xss[5] + xss[6] + xss[7];
    assert Flatten(xss[4..]) == xss[4] + xss[5] + xss[6] + xss[7];
    assert Flatten(xss[3..]) == xss[3] + xss[4] + xss[5] + xss[6] + xss[7];
    assert Flatten(xss[2..]) == xss[2] + xss[3] + xss[4] + xss[5] + xss[6] + xss[7];
    assert Flatten(xss[1..]) == xss[1] + xss[2] + xss[3] + xss[4] + xss[5] + xss[6] + xss[7];
  }

  lemma CatalogExerciseIdListDistinct()
    ensures Distinct(CatalogExerciseIdList)
  {
    // the sixteen ids already differ in their keys
    var keys := [6910513, 6910514, 6911025, 6911026, 6449457, 6449458, 6907185, 6907186,
                 7696177, 7696178, 6383409, 6383410, 7172145, 7172146, 7234865, 7234866];
    var ids := CatalogExerciseIdList;
    forall k | 0 <= k < |ids|
      ensures IdKey(ids[k]) == keys[k]
    {
    }
    forall i, j | 0 <= i < j < |ids|
      ensures ids[i] != ids[j]
    {
      assert IdKey(ids[i]) != IdKey(ids[j]);
    }
  }

  lemma CatalogExerciseIdsDistinct()
    ensures Distinct(AllExerciseIds(Catalog))
  {
    CatalogExerciseIdsPerLesson();
    AllExerciseIdsFlatten(Catalog, CatalogExerciseIds);
    CatalogExerciseIdsFlat();
    CatalogExerciseIdListDistinct();
  }

  lemma CatalogPrerequisitesEarlier(i: nat)
    requires i < |Catalog|
    ensures PrerequisitesEarlier(Catalog, i)
  {
    if i == 1 { assert Catalog[0].id == "intro-to-typescript"; }
    else if i == 2 { assert Catalog[1].id == "installing-typescript"; }
    else if i == 3 { assert Catalog[2].id == "basic-types"; }
    else if i == 4 { assert Catalog[3].id == "interfaces-vs-type-aliases"; }
    else if i == 5 { assert Catalog[4].id == "union-intersection-types"; }
    else if i == 6 { assert Catalog[5].id == "advanced-generics"; }
    else if i == 7 { assert Catalog[2].id == "basic-types"; }
  }

  /** The lesson ids of the catalog, in order. */
  const CatalogLessonIds: seq<string> := [
    "intro-to-typescript", "installing-typescript", "basic-types", "interfaces-vs-type-aliases",
    "union-intersection-types", "advanced-generics", "mapped-types", "typescript-with-node"]

  lemma CatalogLessonIdsAre()
    ensures LessonIds(Catalog) == CatalogLessonIds
  {
    var ids := LessonIds(Catalog);
    forall k | 0 <= k < |CatalogLessonIds|
      ensures ids[k] == CatalogLessonIds[k]
    {
    }
  }

  lemma CatalogLessonIdsListDistinct()
    ensures Distinct(CatalogLessonIds)
  {
    // the eight ids happen to have eight different lengths
    var lengths := [19, 21, 11, 26, 24, 17, 12, 20];
    forall k | 0 <= k < |CatalogLessonIds|
      ensures |CatalogLessonIds[k]| == lengths[k]
    {
    }
    forall i, j | 0 <= i < j < |CatalogLessonIds|
      ensures CatalogLessonIds[i] != CatalogLessonIds[j]
    {
      assert |CatalogLessonIds[i]| != |CatalogLessonIds[j]|;
    }
  }

  lemma CatalogLessonWellFormed(i: nat)
    requires i < |Catalog|
    ensures LessonWellFormed(Catalog, i)
  {
    CatalogPrerequisitesEarlier(i);
  }

  /**
   * The catalog has distinct lesson ids and distinct exercise ids, only declared
   * difficulties (the lesson under the "Bonus Modules" heading says "beginner"),
   * `order` equal to the 1-based position, a non-empty exercise list per lesson,
   * prerequisites placed earlier, multiple-choice answers among the options, and
   * coding exercises without options whose starter text is the answer.
   */
  lemma CatalogIsWellFormed()
    ensures WellFormedCatalog(Catalog)
  {
    CatalogLessonIdsAre();
    CatalogLessonIdsListDistinct();
    CatalogExerciseIdsDistinct();
    forall i | 0 <= i < |Catalog|
      ensures LessonWellFormed(Catalog, i)
    {
      CatalogLessonWellFormed(i);
    }
  }

  /** `lessons.find(l => l.id === id)`: the first lesson with that id, if any. */
  function FindLesson(ls: seq<Lesson>, id: string): (r: Option<Lesson>)
    ensures r.None? <==> id !in LessonIds(ls)
    ensures r.Some? ==> r.value in ls && r.value.id == id
  {
    if ls == [] then None
    else if ls[0].id == id then Some(ls[0])
    else
      assert id in LessonIds(ls[1..]) ==> id in LessonIds(ls) by {
        if id in LessonIds(ls[1..]) {
          var k :| 0 <= k < |ls[1..]| && LessonIds(ls[1..])[k] == id;
          assert LessonIds(ls)[k + 1] == id;
        }
      }
      FindLesson(ls[1..], id)
  }

  /** The lesson found is the first one carrying the id. */
  lemma {:induction false} FindLessonFirst(ls: seq<Lesson>, id: string, i: nat)
    requires i < |ls| && ls[i].id == id
    requires forall j | 0 <= j < i :: ls[j].id != id
    ensures FindLesson(ls, id) == Some(ls[i])
  {
    if i > 0 {
      FindLessonFirst(ls[1..], id, i - 1);
    }
  }

  /** With distinct ids, finding a lesson's own id finds that lesson. */
  lemma FindLessonById(ls: seq<Lesson>, i: nat)
    requires i < |ls| && Distinct(LessonIds(ls))
    ensures FindLesson(ls, ls[i].id) == Some(ls[i])
  {
    var ids := LessonIds(ls);
    assert forall j | 0 <= j < i :: ids[j] != ids[i];
    FindLessonFirst(ls, ls[i].id, i);
  }

  /** Lesson `i` lists lesson `j` among its prerequisites. */
  predicate PrerequisiteEdge(ls: seq<Lesson>, i: nat, j: nat)
    requires i < |ls| && j < |ls|
  {
    ls[j].id in ls[i].prerequisites
  }

  /** A chain of lessons, each a prerequisite of the one before it. */
  predicate PrerequisiteChain(ls: seq<Lesson>, path: seq<nat>) {
    && (forall k | 0 <= k < |path| :: path[k] < |ls|)
    && (forall k | 0 <= k < |path| - 1 :: PrerequisiteEdge(ls, path[k], path[k + 1]))
  }

  lemma PrerequisiteEdgeGoesBack(ls: seq<Lesson>, i: nat, j: nat)
    requires WellFormedCatalog(ls) && i < |ls| && j < |ls|
    requires PrerequisiteEdge(ls, i, j)
    ensures j < i
  {
    assert LessonWellFormed(ls, i);
    var k :| 0 <= k < i && ls[k].id == ls[j].id;
    assert LessonIds(ls)[k] == LessonIds(ls)[j];
  }

  /** Every prerequisite chain of a well-formed catalog ends strictly before it starts. */
  lemma {:induction false} PrerequisiteChainDescends(ls: seq<Lesson>, path: seq<nat>)
    requires WellFormedCatalog(ls) && PrerequisiteChain(ls, path) && |path| >= 2
    ensures path[|path| - 1] < path[0]
  {
    PrerequisiteEdgeGoesBack(ls, path[0], path[1]);
    if |path| > 2 {
      PrerequisiteChainDescends(ls, path[1..]);
    }
  }

  /** Hence the prerequisite relation of the catalog has no cycle. */
  lemma CatalogPrerequisitesAcyclic(path: seq<nat>)
    requires PrerequisiteChain(Catalog, path) && |path| >= 2
    ensures path[|path| - 1] != path[0]
  {
    CatalogIsWellFormed();
    PrerequisiteChainDescends(Catalog, path);
  }
}
