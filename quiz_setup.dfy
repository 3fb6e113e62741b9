/** The quiz setup form (src/components/quiz/QuizSetup.tsx): selecting word
    lists and question types, the question count, and the checks made before
    a quiz starts. */
module QuizSetup {
  import opened Types
  import opened Seqs
  import opened Text
  import opened Store

  /** The values the question-count select offers. */
  const CountOptions: seq<string> := ["10", "20", "50", "all"]

  const DefaultCount: string := "10"

  function Without<T(==)>(x: T): T -> bool {
    (y: T) => y != x
  }

  function Only<T(==)>(x: T): T -> bool {
    (y: T) => y == x
  }

  function NeitherOf<T(==)>(x: T, y: T): T -> bool {
    (z: T) => z != x && z != y
  }

  /** `handleFileSelect`: the weak-words entry toggles alone; any other list
      toggles and drops the weak-words entry. A newly selected list goes to
      the end, and the other lists keep their order. */
  function SelectFile(prev: seq<string>, id: string): (r: seq<string>)
    ensures id == WeakWordsId ==> r == (if WeakWordsId in prev then [] else [WeakWordsId])
    ensures id != WeakWordsId ==>
      && WeakWordsId !in r
      && (id in r <==> id !in prev)
      && (forall x :: x != id && x != WeakWordsId ==> (x in r <==> x in prev))
    ensures id != WeakWordsId && id !in prev ==> r == Filter(prev, Without(WeakWordsId)) + [id]
    ensures id != WeakWordsId && id in prev ==> r == Filter(prev, NeitherOf(id, WeakWordsId))
  {
    if id == WeakWordsId then
      if WeakWordsId in prev then [] else [WeakWordsId]
    else if id in prev then
      FilterFilter(prev, Without(id), Without(WeakWordsId), NeitherOf(id, WeakWordsId));
      Filter(Filter(prev, Without(id)), Without(WeakWordsId))
    else
      FilterSnoc(prev, id, Without(WeakWordsId));
      Filter(prev + [id], Without(WeakWordsId))
  }

  /** A selection the form can reach: no id twice, and the weak-words entry
      only on its own. */
  predicate WellFormedSelection(ids: seq<string>) {
    NoDuplicates(ids) && (WeakWordsId in ids ==> ids == [WeakWordsId])
  }

  lemma {:induction false} FilterKeepsNoDuplicates<T(!new)>(s: seq<T>, p: T -> bool)
    requires NoDuplicates(s)
    ensures NoDuplicates(Filter(s, p))
    decreases |s|
  {
    if s != [] {
      var init := s[..|s| - 1];
      var last := s[|s| - 1];
      assert s == init + [last];
      assert NoDuplicates(init) by {
        forall i, j | 0 <= i < j < |init| ensures init[i] != init[j] {
          assert init[i] == s[i] && init[j] == s[j];
        }
      }
      assert last !in init;
      FilterKeepsNoDuplicates(init, p);
      FilterSnoc(init, last, p);
      AppendFresh(Filter(init, p), last);
    }
  }

  lemma AppendFresh<T>(s: seq<T>, x: T)
    requires NoDuplicates(s) && x !in s
    ensures NoDuplicates(s + [x])
  {
    var t := s + [x];
    forall i, j | 0 <= i < j < |t| ensures t[i] != t[j] {
      if j == |s| {
        assert t[i] == s[i];
      } else {
        assert t[i] == s[i] && t[j] == s[j];
      }
    }
  }

  /** Every click on a list keeps the selection well formed. */
  lemma SelectFileKeepsWellFormed(prev: seq<string>, id: string)
    requires WellFormedSelection(prev)
    ensures WellFormedSelection(SelectFile(prev, id))
  {
    if id != WeakWordsId {
      var toggled := if id in prev then Filter(prev, Without(id)) else prev + [id];
      if id in prev {
        FilterKeepsNoDuplicates(prev, Without(id));
      } else {
        AppendFresh(prev, id);
      }
      FilterKeepsNoDuplicates(toggled, Without(WeakWordsId));
    }
  }

  /** For a well-formed selection, the quiz is a weak-words quiz exactly when
      the selection is the weak-words entry alone. */
  lemma WeakWordsOnlyAlone(ids: seq<string>)
    requires WellFormedSelection(ids)
    ensures (WeakWordsId in ids) <==> ids == [WeakWordsId]
  {
    if ids == [WeakWordsId] {
      assert ids[0] == WeakWordsId;
    }
  }

  /** `handleQuestionTypeSelect`: toggle one type. */
  function ToggleType(prev: seq<QuestionType>, t: QuestionType): (r: seq<QuestionType>)
    ensures t in r <==> t !in prev
    ensures forall u :: u != t ==> (u in r <==> u in prev)
  {
    if t in prev then Filter(prev, Without(t)) else prev + [t]
  }

  /** Toggling keeps the types distinct, and toggling the same type twice
      selects the same types as before. */
  lemma ToggleTypeSpec(prev: seq<QuestionType>, t: QuestionType)
    requires NoDuplicates(prev)
    ensures NoDuplicates(ToggleType(prev, t))
    ensures |ToggleType(prev, t)| == if t in prev then |prev| - 1 else |prev| + 1
    ensures forall u :: u in ToggleType(ToggleType(prev, t), t) <==> u in prev
  {
    if t in prev {
      FilterKeepsNoDuplicates(prev, Without(t));
      var i :| 0 <= i < |prev| && prev[i] == t;
      OnlyOccurrence(prev, i);
      FilterSplitsLength(prev, Without(t), Only(t));
      SingleMatch(prev, t);
    } else {
      AppendFresh(prev, t);
    }
  }

  lemma OnlyOccurrence<T>(s: seq<T>, i: nat)
    requires NoDuplicates(s) && i < |s|
    ensures forall j :: 0 <= j < |s| && s[j] == s[i] ==> j == i
  {
  }

  lemma {:induction false} SingleMatch<T(!new)>(s: seq<T>, x: T)
    requires NoDuplicates(s) && x in s
    ensures |Filter(s, Only(x))| == 1
    decreases |s|
  {
    var init := s[..|s| - 1];
    var last := s[|s| - 1];
    assert s == init + [last];
    FilterSnoc(init, last, Only(x));
    assert NoDuplicates(init) by {
      forall i, j | 0 <= i < j < |init| ensures init[i] != init[j] {
        assert init[i] == s[i] && init[j] == s[j];
      }
    }
    if last == x {
      assert x !in init;
      FilterNone(init, Only(x));
    } else {
      SingleMatch(init, x);
    }
  }

  // ---- the form's starting values ----

  /** `lastQuizSettings?.fileIds || []`. */
  function InitialFileIds(last: Option<QuizSettings>): seq<string> {
    if last.Some? then last.value.fileIds else []
  }

  /** `lastQuizSettings?.questionTypes || <every type>`. */
  function InitialTypes(last: Option<QuizSettings>): seq<QuestionType> {
    if last.Some? then last.value.questionTypes else AllQuestionTypes
  }

  /** The count string: "all", the previous number, or "10" when there is no
      previous quiz or its number is 0 (`0 || '10'`). */
  function InitialCount(last: Option<QuizSettings>): string {
    if last.Some? && last.value.numberOfQuestions.All? then "all"
    else if last.Some? && last.value.numberOfQuestions.n != 0 then DecimalString(last.value.numberOfQuestions.n)
    else DefaultCount
  }

  // ---- submitting ----

  datatype Rejection = NoFileSelected | NoTypeSelected | InvalidCount

  datatype Submission = Rejected(reason: Rejection) | Accepted(settings: QuizSettings)

  /** `numQuestions === 'all' ? 'all' : parseInt(numQuestions, 10)`, with
      `None` for NaN and for a number that is not positive. */
  function ParseCount(num: string): Option<QuestionCount> {
    if num == "all" then Some(All)
    else
      match ParseInt(num)
      case None => None
      case Some(v) => if v <= 0 then None else Some(Limit(v))
  }

  /** `handleSubmit`: the three checks in order, then the settings. */
  function SubmitOf(fileIds: seq<string>, types: seq<QuestionType>, num: string): Submission {
    if fileIds == [] then Rejected(NoFileSelected)
    else if types == [] then Rejected(NoTypeSelected)
    else
      match ParseCount(num)
      case None => Rejected(InvalidCount)
      case Some(count) => Accepted(QuizSettings(fileIds, types, count, WeakWordsId in fileIds))
  }

  /** A submission is accepted exactly when a list and a type are selected and
      the count is "all" or a positive number; the first failing check names
      the rejection, and accepted settings carry the form's values. */
  lemma SubmitSpec(fileIds: seq<string>, types: seq<QuestionType>, num: string)
    ensures var r := SubmitOf(fileIds, types, num);
      && (r.Rejected? && r.reason == NoFileSelected <==> fileIds == [])
      && (r.Rejected? && r.reason == NoTypeSelected <==> fileIds != [] && types == [])
      && (r.Rejected? && r.reason == InvalidCount <==> fileIds != [] && types != [] && ParseCount(num).None?)
      && (r.Accepted? ==>
            && r.settings.fileIds == fileIds && |fileIds| > 0
            && r.settings.questionTypes == types && |types| > 0
            && Some(r.settings.numberOfQuestions) == ParseCount(num)
            && (r.settings.numberOfQuestions.Limit? ==> r.settings.numberOfQuestions.n > 0)
            && (r.settings.weakWordsOnly <==> WeakWordsId in fileIds))
  {
  }

  /** `String(n)` parses back to `n` as a count, for every positive `n`. */
  lemma PositiveCountParses(n: nat)
    requires n > 0
    ensures ParseCount(DecimalString(n)) == Some(Limit(n))
  {
    ParseDecimalString(n);
    assert DecimalString(n) != "all" by {
      assert IsDigit(DecimalString(n)[0]);
    }
  }

  /** Each count the select offers is accepted as itself. */
  lemma CountOptionsParse()
    ensures ParseCount("10") == Some(Limit(10))
    ensures ParseCount("20") == Some(Limit(20))
    ensures ParseCount("50") == Some(Limit(50))
    ensures ParseCount("all") == Some(All)
  {
    assert DecimalString(10) == "10" by {
      assert DecimalString(1) == "1";
    }
    PositiveCountParses(10);
    assert DecimalString(20) == "20" by {
      assert DecimalString(2) == "2";
    }
    PositiveCountParses(20);
    assert DecimalString(50) == "50" by {
      assert DecimalString(5) == "5";
    }
    PositiveCountParses(50);
  }

  /** The count shown for a previous quiz reads back as that quiz's count; a
      previous count of 0 comes back as 10. */
  lemma InitialCountRoundTrip(last: QuizSettings)
    ensures last.numberOfQuestions != Limit(0) ==> ParseCount(InitialCount(Some(last))) == Some(last.numberOfQuestions)
    ensures last.numberOfQuestions == Limit(0) ==> ParseCount(InitialCount(Some(last))) == Some(Limit(10))
  {
    CountOptionsParse();
    if last.numberOfQuestions.Limit? && last.numberOfQuestions.n != 0 {
      PositiveCountParses(last.numberOfQuestions.n);
    }
  }

  /** Submitting the form exactly as it opens after an accepted quiz starts
      the same quiz again. */
  lemma ResubmitLastSettings(fileIds: seq<string>, types: seq<QuestionType>, num: string)
    requires SubmitOf(fileIds, types, num).Accepted?
    ensures var last := Some(SubmitOf(fileIds, types, num).settings);
      SubmitOf(InitialFileIds(last), InitialTypes(last), InitialCount(last)) == SubmitOf(fileIds, types, num)
  {
    var s := SubmitOf(fileIds, types, num).settings;
    InitialCountRoundTrip(s);
  }

  /** `handleSubmit` stores the settings as the last ones before the quiz
      screen stores them again with the active quiz; storing twice is the
      same as storing once. */
  lemma RememberTwiceSameAsOnce(app: State, s: QuizSettings)
    ensures Step(Step(Step(app, SetLastQuizSettings(Some(s))), SetLastQuizSettings(Some(s))), SetQuizSettings(Some(s)))
         == Step(Step(app, SetLastQuizSettings(Some(s))), SetQuizSettings(Some(s)))
  {
  }

  /** The form's state. */
  class QuizSetupForm {
    var fileIds: seq<string>
    var types: seq<QuestionType>
    var numQuestions: string

    /** The form opens with the previous quiz's choices, or every type, no
        list and "10". */
    constructor(last: Option<QuizSettings>)
      ensures fileIds == InitialFileIds(last)
      ensures types == InitialTypes(last)
      ensures numQuestions == InitialCount(last)
    {
      fileIds := InitialFileIds(last);
      types := InitialTypes(last);
      numQuestions := InitialCount(last);
    }

    method ClickFile(id: string)
      modifies this
      ensures fileIds == SelectFile(old(fileIds), id)
      ensures types == old(types) && numQuestions == old(numQuestions)
    {
      fileIds := SelectFile(fileIds, id);
    }

    method ClickType(t: QuestionType)
      modifies this
      ensures types == ToggleType(old(types), t)
      ensures fileIds == old(fileIds) && numQuestions == old(numQuestions)
    {
      types := ToggleType(types, t);
    }

    method ChooseCount(option: string)
      modifies this
      ensures numQuestions == option
      ensures fileIds == old(fileIds) && types == old(types)
    {
      numQuestions := option;
    }

    /** The press on the start button: the settings to start, or the reason
        the form refuses (shown as a notice). */
    method Submit() returns (r: Submission)
      ensures r == SubmitOf(fileIds, types, numQuestions)
      ensures r.Accepted? ==> |r.settings.fileIds| > 0 && |r.settings.questionTypes| > 0
    {
      if |fileIds| == 0 {
        return Rejected(NoFileSelected);
      }
      if |types| == 0 {
        return Rejected(NoTypeSelected);
      }
      var count := ParseCount(numQuestions);
      if count.None? {
        return Rejected(InvalidCount);
      }
      r := Accepted(QuizSettings(fileIds, types, count.value, WeakWordsId in fileIds));
    }
  }
}
