/** The results screen (src/components/quiz/QuizResults.tsx): the number of
    correct answers, the number shown as wrong, and the rounded score. */
module QuizResults {
  import opened Types
  import opened Seqs
  import opened Percent

  function Is(v: Option<bool>): Option<bool> -> bool {
    (a: Option<bool>) => a == v
  }

  /** `userAnswers.filter(answer => answer === true).length`. */
  function CorrectAnswers(answers: seq<Option<bool>>): nat {
    Count(answers, Is(Some(true)))
  }

  /** `totalQuestions - correctAnswers`, the number shown as wrong. */
  function WrongShown(answers: seq<Option<bool>>): nat {
    |answers| - CorrectAnswers(answers)
  }

  /** `totalQuestions > 0 ? Math.round(correct / total * 100) : 0`. */
  function Score(answers: seq<Option<bool>>): (r: nat)
    ensures r <= 100
    ensures answers == [] ==> r == 0
  {
    if |answers| > 0 then RoundPercent(CorrectAnswers(answers), |answers|) else 0
  }

  /** A quiz with every answer correct scores 100, and one with none correct
      scores 0. */
  lemma ScoreExtremes(answers: seq<Option<bool>>)
    ensures answers != [] && (forall i :: 0 <= i < |answers| ==> answers[i] == Some(true)) ==> Score(answers) == 100
    ensures (forall i :: 0 <= i < |answers| ==> answers[i] != Some(true)) ==> Score(answers) == 0
  {
    if forall i :: 0 <= i < |answers| ==> answers[i] == Some(true) {
      FilterAll(answers, Is(Some(true)));
    }
    if forall i :: 0 <= i < |answers| ==> answers[i] != Some(true) {
      FilterNone(answers, Is(Some(true)));
    }
  }

  /** The score is 100 exactly when the correct share is at least 99.5%. */
  lemma PerfectScoreThreshold(answers: seq<Option<bool>>)
    ensures Score(answers) == 100 <==> answers != [] && 200 * CorrectAnswers(answers) >= 199 * |answers|
  {
  }

  /** Below 200 questions, a score of 100 means every answer was correct. */
  lemma PerfectScoreSmallQuiz(answers: seq<Option<bool>>)
    requires |answers| < 200
    ensures Score(answers) == 100 <==> answers != [] && forall i :: 0 <= i < |answers| ==> answers[i] == Some(true)
  {
    ScoreExtremes(answers);
    if Score(answers) == 100 {
      var c := CorrectAnswers(answers);
      assert 200 * (|answers| - c) <= |answers|;
      FilterFull(answers, Is(Some(true)));
    }
  }

  /** From 200 questions on, rounding shows 100 with an answer wrong: 199
      correct out of 200. */
  lemma PerfectScoreWithMistake()
    ensures var answers := seq(199, _ => Some(true)) + [Some(false)];
      Score(answers) == 100 && answers[199] == Some(false)
  {
    var front: seq<Option<bool>> := seq(199, _ => Some(true));
    FilterAll(front, Is(Some(true)));
    FilterSnoc(front, Some(false), Is(Some(true)));
    assert CorrectAnswers(front + [Some(false)]) == 199;
  }

  /** The wrong count shown includes the questions left unanswered. */
  lemma {:induction false} WrongShownSplit(answers: seq<Option<bool>>)
    ensures WrongShown(answers) == Count(answers, Is(Some(false))) + Count(answers, Is(None))
    decreases |answers|
  {
    if answers != [] {
      var init := answers[..|answers| - 1];
      var last := answers[|answers| - 1];
      assert answers == init + [last];
      WrongShownSplit(init);
      FilterSnoc(init, last, Is(Some(true)));
      FilterSnoc(init, last, Is(Some(false)));
      FilterSnoc(init, last, Is(None));
      assert Count(init, Is(Some(true))) <= |init|;
      match last {
        case None =>
        case Some(b) => assert last == Some(true) || last == Some(false);
      }
      assert Count(answers, Is(Some(true))) == Count(init, Is(Some(true))) + (if last == Some(true) then 1 else 0);
      assert Count(answers, Is(Some(false))) == Count(init, Is(Some(false))) + (if last == Some(false) then 1 else 0);
      assert Count(answers, Is(None)) == Count(init, Is(None)) + (if last == None then 1 else 0);
    }
  }
}
