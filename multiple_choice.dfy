/** The multiple-choice widget (src/components/quiz/MultipleChoiceQuestion.tsx):
    which side of the word is asked and offered, the single click it accepts,
    and how the options are marked once it is answered. */
module MultipleChoice {
  import opened Types

  datatype Mode = EnToJp | JpToEn

  /** The mode the question display picks for a multiple-choice type. */
  function ModeOf(kind: QuestionType): Mode
    requires IsMultipleChoice(kind)
  {
    if kind == EnToJpMc then EnToJp else JpToEn
  }

  /** `questionText`. */
  function Prompt(mode: Mode, w: Word): string {
    if mode == EnToJp then w.english else w.japanese
  }

  /** `getOptionText`. */
  function OptionText(mode: Mode, option: Word): string {
    if mode == EnToJp then option.japanese else option.english
  }

  /** The prompt and the options show opposite sides of a word: what one mode
      asks is what the other mode offers. */
  lemma PromptAndOptionsOpposite(w: Word)
    ensures Prompt(EnToJp, w) == w.english && OptionText(EnToJp, w) == w.japanese
    ensures Prompt(JpToEn, w) == w.japanese && OptionText(JpToEn, w) == w.english
    ensures Prompt(EnToJp, w) == OptionText(JpToEn, w) && Prompt(JpToEn, w) == OptionText(EnToJp, w)
  {
  }

  datatype Mark = Plain | MarkedCorrect | MarkedWrong

  /** The highlight of one option button. */
  function MarkOf(answered: bool, selected: Option<string>, word: Word, option: Word): (m: Mark)
    ensures m == MarkedCorrect <==> answered && option.id == word.id
    ensures m == MarkedWrong <==> answered && selected == Some(option.id) && option.id != word.id
  {
    if answered && option.id == word.id then MarkedCorrect
    else if answered && selected == Some(option.id) then MarkedWrong
    else Plain
  }

  /** Once answered, a question whose options carry the word's id exactly
      once marks exactly that option correct; a correct click marks nothing
      wrong. */
  lemma MarksAfterAnswer(selected: string, word: Word, options: seq<Word>, k: nat)
    requires k < |options| && options[k].id == word.id
    requires forall i :: 0 <= i < |options| && options[i].id == word.id ==> i == k
    ensures MarkOf(true, Some(selected), word, options[k]) == MarkedCorrect
    ensures forall i :: 0 <= i < |options| && i != k ==> MarkOf(true, Some(selected), word, options[i]) != MarkedCorrect
    ensures selected == word.id ==> forall i :: 0 <= i < |options| ==> MarkOf(true, Some(selected), word, options[i]) != MarkedWrong
  {
  }

  /** The widget's state; `reports` counts the verdicts it has passed on. */
  class ChoiceWidget {
    const word: Word
    const options: seq<Word>
    const mode: Mode
    var selected: Option<string>
    var answered: bool
    ghost var reports: nat

    /** A verdict has been reported exactly when the question is answered,
        and then once. */
    ghost predicate Valid()
      reads this
    {
      && reports == (if answered then 1 else 0)
      && (answered <==> selected.Some?)
    }

    constructor(w: Word, opts: seq<Word>, m: Mode)
      ensures Valid()
      ensures word == w && options == opts && mode == m
      ensures selected == None && !answered && reports == 0
    {
      word := w;
      options := opts;
      mode := m;
      selected := None;
      answered := false;
      reports := 0;
    }

    /** `handleOptionClick`: the first click answers and reports whether the
        clicked option is the word; later clicks do nothing. */
    method Click(optionId: string) returns (report: Option<bool>)
      requires Valid()
      modifies this
      ensures Valid() && reports <= 1
      ensures old(answered) ==> report == None && selected == old(selected) && answered
      ensures !old(answered) ==> report == Some(optionId == word.id) && selected == Some(optionId) && answered
    {
      if answered {
        return None;
      }
      selected := Some(optionId);
      answered := true;
      reports := reports + 1;
      report := Some(optionId == word.id);
    }

    function MarkAt(i: nat): Mark
      requires i < |options|
      reads this
    {
      MarkOf(answered, selected, word, options[i])
    }
  }
}
