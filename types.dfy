/** The records of the vocabulary app (src/lib/types.ts) and the lookups over
    the file list that several components share. */
module Types {

  datatype Option<T> = None | Some(value: T) {
    /** JavaScript's `x ?? default`. */
    function GetOr(default: T): T {
      match this
      case Some(v) => v
      case None => default
    }
  }

  datatype Word = Word(id: string, english: string, japanese: string)

  datatype VocabFile = VocabFile(id: string, name: string, words: seq<Word>)

  datatype QuestionType = EnToJpMc | JpToEnMc | JpToEnTyping

  datatype AppSettings = AppSettings(tapToContinueOnIncorrect: bool, statsCarouselIndex: int)

  /** `numberOfQuestions: number | 'all'`. */
  datatype QuestionCount = Limit(n: nat) | All

  datatype QuizSettings = QuizSettings(
    fileIds: seq<string>,
    questionTypes: seq<QuestionType>,
    numberOfQuestions: QuestionCount,
    weakWordsOnly: bool)

  datatype Question = Question(word: Word, kind: QuestionType, options: seq<Word>)

  datatype AnswerRecord = AnswerRecord(fileId: string, wordId: string, correct: bool, timestamp: int)

  /** The reserved selection id that stands for "weak words only". */
  const WeakWordsId: string := "weak-words"

  /** The file id the quiz uses when no file owns a word. */
  const UnknownFileId: string := "unknown"

  const AllQuestionTypes: seq<QuestionType> := [EnToJpMc, JpToEnMc, JpToEnTyping]

  /** The string value of a question type, as the application spells it. */
  function Tag(t: QuestionType): string {
    match t
    case EnToJpMc => "en-to-jp-mc"
    case JpToEnMc => "jp-to-en-mc"
    case JpToEnTyping => "jp-to-en-typing"
  }

  /** `type.endsWith('-mc')`. */
  predicate IsMultipleChoice(t: QuestionType) {
    var tag := Tag(t);
    |tag| >= 3 && tag[|tag| - 3..] == "-mc"
  }

  lemma MultipleChoiceKinds(t: QuestionType)
    ensures IsMultipleChoice(t) <==> t != JpToEnTyping
  {
  }

  /** `files.flatMap(f => f.words)`. */
  function AllWords(files: seq<VocabFile>): (r: seq<Word>)
    ensures forall w :: w in r <==> exists f :: f in files && w in f.words
    decreases |files|
  {
    if files == [] then []
    else
      var init := files[..|files| - 1];
      assert files == init + [files[|files| - 1]];
      AllWords(init) + files[|files| - 1].words
  }

  /** `files.find(f => f.id === id)`: the first file with that id. */
  function FindFile(files: seq<VocabFile>, id: string): (r: Option<VocabFile>)
    ensures r.None? <==> forall f :: f in files ==> f.id != id
    ensures r.Some? ==> r.value in files && r.value.id == id
    ensures r.Some? ==> exists k :: 0 <= k < |files| && files[k] == r.value
                                   && forall j :: 0 <= j < k ==> files[j].id != id
    decreases |files|
  {
    if files == [] then None
    else if files[0].id == id then Some(files[0])
    else
      var r := FindFile(files[1..], id);
      r
  }

  predicate HasWordId(f: VocabFile, wordId: string) {
    exists w :: w in f.words && w.id == wordId
  }

  /** `files.find(f => f.words.some(w => w.id === wordId))`: the first file
      that owns a word with that id. */
  function OwnerOf(files: seq<VocabFile>, wordId: string): (r: Option<VocabFile>)
    ensures r.None? <==> forall f :: f in files ==> !HasWordId(f, wordId)
    ensures r.Some? ==> r.value in files && HasWordId(r.value, wordId)
    ensures r.Some? ==> exists k :: 0 <= k < |files| && files[k] == r.value
                                   && forall j :: 0 <= j < k ==> !HasWordId(files[j], wordId)
    decreases |files|
  {
    if files == [] then None
    else if HasWordId(files[0], wordId) then Some(files[0])
    else OwnerOf(files[1..], wordId)
  }
}
