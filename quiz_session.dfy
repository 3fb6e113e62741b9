/** The quiz session (src/components/quiz/QuizManager.tsx): the stage machine
    from setup through the questions to the results and the review, the
    per-question answers, and the history records each answer adds. */
module QuizSession {
  import opened Types
  import opened Seqs
  import opened Store
  import opened QuizBuilder

  datatype Stage = Setup | Loading | InProgress | Results | Review

  /** The record an answer to a question about `word` adds to the history:
      filed under the first file holding a word with that id, and none when
      no file does or when that file's id is the reserved "unknown". */
  function RecordFor(files: seq<VocabFile>, word: Word, isCorrect: bool, now: int): (r: Option<AnswerRecord>)
    ensures r.None? <==> (forall f :: f in files ==> !HasWordId(f, word.id))
                         || OwnerOf(files, word.id).value.id == UnknownFileId
    ensures r.Some? ==> r.value.wordId == word.id && r.value.correct == isCorrect && r.value.timestamp == now
    ensures r.Some? ==> exists k :: 0 <= k < |files| && files[k].id == r.value.fileId && HasWordId(files[k], word.id)
                                   && forall j :: 0 <= j < k ==> !HasWordId(files[j], word.id)
  {
    var owner := OwnerOf(files, word.id);
    var fileId := if owner.Some? then owner.value.id else UnknownFileId;
    if fileId != UnknownFileId then Some(AnswerRecord(fileId, word.id, isCorrect, now)) else None
  }

  function RecordsOf(r: Option<AnswerRecord>): seq<AnswerRecord> {
    match r
    case Some(x) => [x]
    case None => []
  }

  /** `questions.filter((_, i) => userAnswers[i] === false).map(q => q.word)`. */
  function IncorrectWordsOf(qs: seq<Question>, answers: seq<Option<bool>>): seq<Word>
    decreases |qs|
  {
    if qs == [] then []
    else
      var i := |qs| - 1;
      IncorrectWordsOf(qs[..i], answers) + (if i < |answers| && answers[i] == Some(false) then [qs[i].word] else [])
  }

  /** A word is reviewed iff some question about it was answered wrongly (or
      skipped); unanswered questions and correct answers contribute nothing. */
  lemma {:induction false} IncorrectWordsMembers(qs: seq<Question>, answers: seq<Option<bool>>, w: Word)
    ensures w in IncorrectWordsOf(qs, answers) <==>
      exists i :: 0 <= i < |qs| && i < |answers| && answers[i] == Some(false) && qs[i].word == w
    decreases |qs|
  {
    if qs != [] {
      var n := |qs| - 1;
      IncorrectWordsMembers(qs[..n], answers, w);
      if exists i :: 0 <= i < |qs| && i < |answers| && answers[i] == Some(false) && qs[i].word == w {
        var i :| 0 <= i < |qs| && i < |answers| && answers[i] == Some(false) && qs[i].word == w;
        if i < n {
          assert qs[..n][i] == qs[i];
        }
      }
      if w in IncorrectWordsOf(qs[..n], answers) {
        var i :| 0 <= i < n && i < |answers| && answers[i] == Some(false) && qs[..n][i].word == w;
        assert qs[i] == qs[..n][i];
      }
    }
  }

  /** As many review words as wrong answers. */
  lemma {:induction false} IncorrectWordsCount(qs: seq<Question>, answers: seq<Option<bool>>)
    requires |answers| == |qs|
    ensures |IncorrectWordsOf(qs, answers)| == Count(answers, (a: Option<bool>) => a == Some(false))
    decreases |qs|
  {
    if qs != [] {
      var n := |qs| - 1;
      IncorrectWordsCount(qs[..n], answers[..n]);
      FilterSnoc(answers[..n], answers[n], (a: Option<bool>) => a == Some(false));
      assert answers[..n] + [answers[n]] == answers;
      assert IncorrectWordsOf(qs[..n], answers[..n]) == IncorrectWordsOf(qs[..n], answers) by {
        PrefixOfAnswers(qs[..n], answers, n);
      }
    }
  }

  /** The results screen offers the review exactly when some question was
      answered wrongly. */
  lemma ReviewOffered(qs: seq<Question>, answers: seq<Option<bool>>)
    requires |answers| == |qs|
    ensures |IncorrectWordsOf(qs, answers)| > 0 <==> exists i :: 0 <= i < |answers| && answers[i] == Some(false)
  {
    if exists i :: 0 <= i < |answers| && answers[i] == Some(false) {
      var i :| 0 <= i < |answers| && answers[i] == Some(false);
      IncorrectWordsMembers(qs, answers, qs[i].word);
    }
    if |IncorrectWordsOf(qs, answers)| > 0 {
      IncorrectWordsMembers(qs, answers, IncorrectWordsOf(qs, answers)[0]);
    }
  }

  lemma {:induction false} PrefixOfAnswers(qs: seq<Question>, answers: seq<Option<bool>>, n: nat)
    requires |qs| <= n <= |answers|
    ensures IncorrectWordsOf(qs, answers[..n]) == IncorrectWordsOf(qs, answers)
    decreases |qs|
  {
    if qs != [] {
      PrefixOfAnswers(qs[..|qs| - 1], answers, n);
    }
  }

  function AllUnanswered(n: nat): (r: seq<Option<bool>>)
    ensures |r| == n && forall i :: 0 <= i < n ==> r[i] == None
  {
    seq(n, _ => None)
  }

  /** The `QuizManager` component's state, with the store state it uses. An
      answer's timer and the tap-to-continue pause end at once here: each
      leads to `handleNextQuestion`. */
  class QuizManager {
    var app: State
    var stage: Stage
    var questions: seq<Question>
    var index: nat
    var answers: seq<Option<bool>>

    /** One answer slot per question; in a running quiz the current question
        exists, the questions before it are answered and the ones after it are
        not; the results and the review see every question answered. The quiz
        settings are set outside the setup screen only, and always name a
        question type. */
    ghost predicate Valid()
      reads this
    {
      && Settled()
      && (stage.InProgress? ==> index < |questions| && AnsweredBefore(index))
      && ((stage.Results? || stage.Review?) ==> AnsweredBefore(|answers|))
    }

    /** The parts of `Valid` that hold between an answer and the move on. */
    ghost predicate Settled()
      reads this
    {
      && |answers| == |questions|
      && (stage.Setup? <==> app.quizSettings.None?)
      && (app.quizSettings.Some? ==> |app.quizSettings.value.questionTypes| > 0)
    }

    /** The first `n` questions are answered, the others are not. */
    ghost predicate AnsweredBefore(n: nat)
      reads this
    {
      && n <= |answers|
      && (forall i :: 0 <= i < n ==> answers[i].Some?)
      && (forall i :: n <= i < |answers| ==> answers[i].None?)
    }

    /** The first render: straight to loading when a quiz is already set. */
    constructor(app0: State)
      requires app0.quizSettings.Some? ==> |app0.quizSettings.value.questionTypes| > 0
      ensures Valid()
      ensures app == app0
      ensures stage == (if app0.quizSettings.Some? then Loading else Setup)
      ensures questions == [] && answers == [] && index == 0
    {
      app := app0;
      stage := if app0.quizSettings.Some? then Loading else Setup;
      questions := [];
      index := 0;
      answers := [];
    }

    /** The reviewed words of the current session. */
    function IncorrectWords(): seq<Word>
      reads this
    {
      IncorrectWordsOf(questions, answers)
    }

    /** `onStartQuiz` from the setup screen: remember the settings, set them as
        the active quiz, and show the loader. */
    method BeginQuiz(s: QuizSettings)
      requires Valid() && stage.Setup?
      requires |s.questionTypes| > 0
      modifies this
      ensures Valid()
      ensures app == Step(Step(old(app), SetLastQuizSettings(Some(s))), SetQuizSettings(Some(s)))
      ensures app.lastQuizSettings == Some(s) && app.quizSettings == Some(s) && app.isQuizInProgress
      ensures app.files == old(app.files) && app.history == old(app.history)
      ensures stage == Loading
      ensures questions == old(questions) && answers == old(answers) && index == old(index)
    {
      app := Step(app, SetLastQuizSettings(Some(s)));
      app := Step(app, SetQuizSettings(Some(s)));
      stage := Loading;
    }

    /** `startQuiz`: build the pool and the questions, or go back to the setup
        screen with the quiz cleared when there is nothing to ask. */
    method StartQuiz(settings: QuizSettings, unaskedDraws: seq<nat>, askedDraws: seq<nat>, coin: nat -> Coins)
      requires Valid() && stage.Loading?
      requires |settings.questionTypes| > 0
      modifies this
      ensures Valid()
      ensures var qs := Generate(settings, Pool(settings, old(app.files), old(app.history)),
                                 old(app.history), unaskedDraws, askedDraws, coin);
        if qs == [] then
          && app == Step(old(app), SetQuizSettings(None)) && stage == Setup
          && questions == old(questions) && answers == old(answers) && index == old(index)
        else
          && app == old(app) && stage == InProgress
          && questions == qs && answers == AllUnanswered(|qs|) && index == 0
    {
      var pool := BuildPool(settings, app.files, app.history);
      ghost var qs := Generate(settings, pool, app.history, unaskedDraws, askedDraws, coin);
      OrderLength(pool, app.history, unaskedDraws, askedDraws);
      if |pool| == 0 {
        assert qs == [];
        Restart();
        return;
      }
      var order := QuestionOrder(pool, app.history, unaskedDraws, askedDraws);
      var final := order[..QuestionTotal(settings.numberOfQuestions, |order|)];
      if |final| == 0 {
        assert qs == [];
        Restart();
        return;
      }
      var generated := MakeQuestions(final, pool, settings.questionTypes, coin);
      assert generated == qs;
      Launch(generated);
    }

    /** The updates `startQuiz` ends with: the questions, an empty answer
        per question, the first question, and the running stage. */
    method Launch(qs: seq<Question>)
      requires Valid() && stage.Loading? && qs != []
      modifies this
      ensures Valid()
      ensures app == old(app) && stage == InProgress
      ensures questions == qs && answers == AllUnanswered(|qs|) && index == 0
    {
      questions := qs;
      answers := AllUnanswered(|qs|);
      index := 0;
      stage := InProgress;
    }

    /** The effect that starts the quiz once the loader shows: `startQuiz`
        on the active settings, which are present whenever the loader is. */
    method LoadingEffect(unaskedDraws: seq<nat>, askedDraws: seq<nat>, coin: nat -> Coins)
      requires Valid()
      modifies this
      ensures Valid()
      ensures !old(stage).Loading? ==> app == old(app) && stage == old(stage) && questions == old(questions)
                                       && answers == old(answers) && index == old(index)
      ensures old(stage).Loading? ==> stage.Setup? || stage.InProgress?
      ensures old(stage).Loading? ==>
        var settings := old(app.quizSettings).value;
        var qs := Generate(settings, Pool(settings, old(app.files), old(app.history)),
                           old(app.history), unaskedDraws, askedDraws, coin);
        if qs == [] then
          && app == Step(old(app), SetQuizSettings(None)) && stage == Setup
          && questions == old(questions) && answers == old(answers) && index == old(index)
        else
          && app == old(app) && stage == InProgress
          && questions == qs && answers == AllUnanswered(|qs|) && index == 0
    {
      if app.quizSettings.Some? && stage.Loading? {
        StartQuiz(app.quizSettings.value, unaskedDraws, askedDraws, coin);
      }
    }

    /** `handleNextQuestion`. */
    method NextQuestion()
      requires Settled() && stage.InProgress? && index < |questions| && AnsweredBefore(index + 1)
      modifies this
      ensures Valid()
      ensures app == old(app) && questions == old(questions) && answers == old(answers)
      ensures old(index) < |questions| - 1 ==> stage == InProgress && index == old(index) + 1
      ensures old(index) >= |questions| - 1 ==> stage == Results && index == old(index)
    {
      if index < |questions| - 1 {
        index := index + 1;
      } else {
        stage := Results;
      }
    }

    /** Store the verdict for the current question and add its history
        record, as `handleAnswer` and `handleSkip` both do. */
    method Record(isCorrect: bool, now: int)
      requires Valid() && stage.InProgress?
      modifies this
      ensures Settled() && stage.InProgress? && index < |questions| && AnsweredBefore(index + 1)
      ensures answers == old(answers)[old(index) := Some(isCorrect)]
      ensures app == Step(old(app), AddHistory(RecordsOf(RecordFor(old(app.files), old(questions)[old(index)].word, isCorrect, now))))
      ensures questions == old(questions) && index == old(index) && stage == old(stage)
    {
      answers := answers[index := Some(isCorrect)];
      var current := questions[index];
      var record := RecordFor(app.files, current.word, isCorrect, now);
      if record.Some? {
        app := Step(app, AddHistory([record.value]));
      } else {
        app := Step(app, AddHistory([]));
        assert app.history == old(app.history) + [];
      }
    }

    /** `handleAnswer`: both the timed and the tap-to-continue path end in
        `handleNextQuestion`. */
    method Answer(isCorrect: bool, now: int)
      requires Valid() && stage.InProgress?
      modifies this
      ensures Valid()
      ensures answers == old(answers)[old(index) := Some(isCorrect)]
      ensures app == Step(old(app), AddHistory(RecordsOf(RecordFor(old(app.files), old(questions)[old(index)].word, isCorrect, now))))
      ensures questions == old(questions)
      ensures old(index) < |questions| - 1 ==> stage == InProgress && index == old(index) + 1
      ensures old(index) >= |questions| - 1 ==> stage == Results && index == old(index)
    {
      Record(isCorrect, now);
      NextQuestion();
    }

    /** `handleSkip`: a skip is a wrong answer, followed at once by the next
        question. */
    method Skip(now: int)
      requires Valid() && stage.InProgress?
      modifies this
      ensures Valid()
      ensures answers == old(answers)[old(index) := Some(false)]
      ensures app == Step(old(app), AddHistory(RecordsOf(RecordFor(old(app.files), old(questions)[old(index)].word, false, now))))
      ensures questions == old(questions)
      ensures old(index) < |questions| - 1 ==> stage == InProgress && index == old(index) + 1
      ensures old(index) >= |questions| - 1 ==> stage == Results && index == old(index)
    {
      Record(false, now);
      NextQuestion();
    }

    /** `restartQuiz`: clear the active quiz and return to the setup screen.
        `startQuiz` makes the same two updates when there is nothing to ask. */
    method Restart()
      requires Valid()
      modifies this
      ensures Valid()
      ensures app == Step(old(app), SetQuizSettings(None)) && !app.isQuizInProgress
      ensures stage == Setup
      ensures questions == old(questions) && answers == old(answers) && index == old(index)
    {
      app := Step(app, SetQuizSettings(None));
      stage := Setup;
    }

    /** `startReview`: review the wrongly answered words, or restart when
        there are none. */
    method StartReview()
      requires Valid() && stage.Results?
      modifies this
      ensures Valid()
      ensures IncorrectWords() != [] ==> stage == Review && app == old(app)
      ensures IncorrectWords() == [] ==> stage == Setup && app == Step(old(app), SetQuizSettings(None))
      ensures questions == old(questions) && answers == old(answers) && index == old(index)
    {
      if |IncorrectWords()| > 0 {
        stage := Review;
      } else {
        Restart();
      }
    }
  }
}
