/**
 * The quiz block: a question with indexed options and one correct index. Three state
 * fields move through select, submit and reset; every submit is reported to the
 * `onComplete` callback, kept here as the list of values it received.
 */
module QuizBlock {
  import opened Outcomes

  datatype Quiz = Quiz(question: string, options: seq<string>, correctAnswer: int, explanation: string)

  /** The one button of the footer. */
  datatype Control = SubmitAnswer(enabled: bool) | TryAgain

  class QuizBlock {
    const quiz: Quiz

    var selectedAnswer: Option<int>
    var showResult: bool
    var isCorrect: bool

    /** The arguments of every `onComplete` call so far, oldest first. */
    var completions: seq<bool>

    /**
     * The states the block can reach: a shown result belongs to a selection and is
     * the verdict on it; before a result is shown the verdict flag is down.
     */
    predicate Valid()
      reads this
    {
      && (showResult ==> selectedAnswer.Some? && isCorrect == (selectedAnswer.value == quiz.correctAnswer))
      && (!showResult ==> !isCorrect)
    }

    /** No selection, no result, not correct, no callback yet. */
    constructor (quiz: Quiz)
      ensures this.quiz == quiz
      ensures selectedAnswer == None && !showResult && !isCorrect && completions == []
      ensures Valid()
    {
      this.quiz := quiz;
      selectedAnswer := None;
      showResult := false;
      isCorrect := false;
      completions := [];
    }

    /** Clicking option `index`: ignored while a result is shown (the buttons are disabled then). */
    method Select(index: nat)
      requires index < |quiz.options|
      requires Valid()
      modifies this
      ensures Valid()
      ensures old(showResult) ==> selectedAnswer == old(selectedAnswer)
      ensures !old(showResult) ==> selectedAnswer == Some(index)
      ensures showResult == old(showResult) && isCorrect == old(isCorrect) && completions == old(completions)
    {
      if !showResult {
        selectedAnswer := Some(index);
      }
    }

    /**
     * `handleSubmit`: nothing without a selection; otherwise record whether the
     * selection is the correct index, show the result and call `onComplete` once with
     * that verdict.
     */
    method Submit()
      requires Valid()
      modifies this
      ensures Valid()
      ensures selectedAnswer == old(selectedAnswer)
      ensures old(selectedAnswer).None? ==>
        showResult == old(showResult) && isCorrect == old(isCorrect) && completions == old(completions)
      ensures old(selectedAnswer).Some? ==>
        && showResult
        && isCorrect == (old(selectedAnswer).value == quiz.correctAnswer)
        && completions == old(completions) + [isCorrect]
    {
      if selectedAnswer.None? {
        return;
      }
      var correct := selectedAnswer.value == quiz.correctAnswer;
      isCorrect := correct;
      showResult := true;
      completions := completions + [correct];
    }

    /** `resetQuiz`: back to the initial state; the callback history is kept. */
    method Reset()
      modifies this
      ensures Valid()
      ensures selectedAnswer == None && !showResult && !isCorrect
      ensures completions == old(completions)
    {
      selectedAnswer := None;
      showResult := false;
      isCorrect := false;
    }

    /** The footer: "Submit Answer" (enabled only with a selection) until a result is shown, then "Try Again". */
    function Footer(): (c: Control)
      reads this
      ensures c.TryAgain? <==> showResult
      ensures c.SubmitAnswer? ==> (c.enabled <==> selectedAnswer.Some?)
    {
      if showResult then TryAgain else SubmitAnswer(selectedAnswer.Some?)
    }
  }

  /** From the initial state, select then submit calls back exactly once, with the verdict. */
  method SelectThenSubmit(quiz: Quiz, index: nat) returns (reported: seq<bool>)
    requires index < |quiz.options|
    ensures reported == [index == quiz.correctAnswer]
  {
    var block := new QuizBlock(quiz);
    block.Select(index);
    block.Submit();
    reported := block.completions;
  }

  /** A second click after submitting does not change the answer that was judged. */
  method SubmitThenSelectAgain(quiz: Quiz, first: nat, second: nat) returns (judged: Option<int>, correct: bool)
    requires first < |quiz.options| && second < |quiz.options|
    ensures judged == Some(first) && correct == (first == quiz.correctAnswer)
  {
    var block := new QuizBlock(quiz);
    block.Select(first);
    block.Submit();
    block.Select(second);
    judged := block.selectedAnswer;
    correct := block.isCorrect;
  }
}
