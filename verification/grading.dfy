/**
 Quiz scoring (app1.py, score display): one point for every item whose
 stored answer is exactly the item's `correct` string.
 */
module Grading {

  /**
   One multiple-choice item as the JSON decoder yields it. Nothing checks
   that `options` has four entries or that `correct` is one of them.
   */
  datatype QuizItem = QuizItem(question: string, options: seq<string>, correct: string)

  /** `answers.get(i) == quiz[i]["correct"]`: a missing answer is simply wrong. */
  predicate IsCorrect(quiz: seq<QuizItem>, answers: map<int, string>, i: int)
    requires 0 <= i < |quiz|
  {
    i in answers && answers[i] == quiz[i].correct
  }

  /** The indices among the first `n` items that were answered correctly. */
  function CorrectIndices(quiz: seq<QuizItem>, answers: map<int, string>, n: nat): set<int>
    requires n <= |quiz|
  {
    set i | 0 <= i < n && IsCorrect(quiz, answers, i)
  }

  /** The indices among the quiz items that have an answer at all. */
  function AnsweredIndices(quiz: seq<QuizItem>, answers: map<int, string>): set<int> {
    set i | 0 <= i < |quiz| && i in answers
  }

  /** The score after the grading loop has looked at the first `n` items. */
  function ScoreUpTo(quiz: seq<QuizItem>, answers: map<int, string>, n: nat): (score: nat)
    requires n <= |quiz|
    ensures score <= n
    ensures score == |CorrectIndices(quiz, answers, n)|
    decreases n
  {
    if n == 0 then
      assert CorrectIndices(quiz, answers, 0) == {};
      0
    else
      var before := ScoreUpTo(quiz, answers, n - 1);
      CorrectIndicesStep(quiz, answers, n - 1);
      before + if IsCorrect(quiz, answers, n - 1) then 1 else 0
  }

  /** The score shown after "Check Score": correct items out of `|quiz|`. */
  function Grade(quiz: seq<QuizItem>, answers: map<int, string>): (score: nat)
    ensures score <= |quiz|
    ensures score == |CorrectIndices(quiz, answers, |quiz|)|
  {
    ScoreUpTo(quiz, answers, |quiz|)
  }

  /** Looking at one more item adds that item's index exactly when it is answered correctly. */
  lemma CorrectIndicesStep(quiz: seq<QuizItem>, answers: map<int, string>, k: nat)
    requires k < |quiz|
    ensures k !in CorrectIndices(quiz, answers, k)
    ensures CorrectIndices(quiz, answers, k + 1)
      == CorrectIndices(quiz, answers, k) + if IsCorrect(quiz, answers, k) then {k} else {}
  {
  }

  /** Full marks exactly when every item is answered correctly. */
  lemma {:induction false} FullMarksIff(quiz: seq<QuizItem>, answers: map<int, string>, n: nat)
    requires n <= |quiz|
    ensures ScoreUpTo(quiz, answers, n) == n
      <==> forall i :: 0 <= i < n ==> IsCorrect(quiz, answers, i)
    decreases n
  {
    if n > 0 {
      FullMarksIff(quiz, answers, n - 1);
    }
  }

  /** Zero exactly when no item is answered correctly. */
  lemma {:induction false} ZeroMarksIff(quiz: seq<QuizItem>, answers: map<int, string>, n: nat)
    requires n <= |quiz|
    ensures ScoreUpTo(quiz, answers, n) == 0
      <==> forall i :: 0 <= i < n ==> !IsCorrect(quiz, answers, i)
    decreases n
  {
    if n > 0 {
      ZeroMarksIff(quiz, answers, n - 1);
    }
  }

  /** The grade never exceeds the number of items that have an answer. */
  lemma GradeAtMostAnswered(quiz: seq<QuizItem>, answers: map<int, string>)
    ensures Grade(quiz, answers) <= |AnsweredIndices(quiz, answers)|
  {
    SubsetCardinality(CorrectIndices(quiz, answers, |quiz|), AnsweredIndices(quiz, answers));
  }

  /** A subset of a finite set is no larger than the set. */
  lemma SubsetCardinality(a: set<int>, b: set<int>)
    requires a <= b
    ensures |a| <= |b|
  {
    assert b == a + (b - a);
  }

  /** Answers stored under indices that name no item do not affect the grade. */
  lemma {:induction false} GradeSeesOnlyItemAnswers(quiz: seq<QuizItem>, a: map<int, string>, b: map<int, string>, n: nat)
    requires n <= |quiz|
    requires forall i :: 0 <= i < |quiz| ==> (i in a <==> i in b)
    requires forall i :: 0 <= i < |quiz| && i in a ==> a[i] == b[i]
    ensures ScoreUpTo(quiz, a, n) == ScoreUpTo(quiz, b, n)
    decreases n
  {
    if n > 0 {
      GradeSeesOnlyItemAnswers(quiz, a, b, n - 1);
      assert IsCorrect(quiz, a, n - 1) == IsCorrect(quiz, b, n - 1);
    }
  }

  /** Choosing the right option for item `j` gains one point, unless it was already right. */
  lemma AnswerCorrectly(quiz: seq<QuizItem>, answers: map<int, string>, j: int)
    requires 0 <= j < |quiz|
    ensures Grade(quiz, answers[j := quiz[j].correct])
      == Grade(quiz, answers) + if IsCorrect(quiz, answers, j) then 0 else 1
  {
    var fixed := answers[j := quiz[j].correct];
    var before := CorrectIndices(quiz, answers, |quiz|);
    var after := CorrectIndices(quiz, fixed, |quiz|);
    assert after == before + {j};
  }

  /** The worked example: one item "2+2?" whose correct option is "4". */
  lemma SingleItemExample()
    ensures var quiz := [QuizItem("2+2?", ["3", "4", "5", "6"], "4")];
      && Grade(quiz, map[0 := "4"]) == 1
      && Grade(quiz, map[0 := "3"]) == 0
      && Grade(quiz, map[]) == 0
  {
  }
}
