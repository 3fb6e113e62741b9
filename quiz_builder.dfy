/** Question generation (`startQuiz` in src/components/quiz/QuizManager.tsx):
    the word pool, the unasked-first order, the truncation to the requested
    count, and each question's type and multiple-choice options. */
module QuizBuilder {
  import opened Types
  import opened Seqs
  import opened Shuffling
  import opened WeakWords

  // ---- the word pool ----

  /** The words of `files.find(f => f.id === id)`, or none when no file has
      that id. */
  function WordsOfFile(files: seq<VocabFile>, id: string): seq<Word>
    decreases |files|
  {
    if files == [] then []
    else if files[0].id == id then files[0].words
    else WordsOfFile(files[1..], id)
  }

  lemma {:induction false} WordsOfFoundFile(files: seq<VocabFile>, id: string)
    ensures WordsOfFile(files, id) == (if FindFile(files, id).Some? then FindFile(files, id).value.words else [])
    decreases |files|
  {
    if files != [] && files[0].id != id {
      WordsOfFoundFile(files[1..], id);
    }
  }

  /** The words of each selected id that matches a file, in selection order;
      ids with no file contribute nothing. */
  function FilePool(files: seq<VocabFile>, ids: seq<string>): seq<Word>
    decreases |ids|
  {
    if ids == [] then []
    else FilePool(files, ids[..|ids| - 1]) + WordsOfFile(files, ids[|ids| - 1])
  }

  /** The pool: the weak words in weak-words mode, the selected files'
      words otherwise. */
  function Pool(settings: QuizSettings, files: seq<VocabFile>, history: seq<AnswerRecord>): seq<Word> {
    if settings.weakWordsOnly then WeakWordsOf(files, history) else FilePool(files, settings.fileIds)
  }

  lemma {:induction false} FilePoolAppend(files: seq<VocabFile>, a: seq<string>, b: seq<string>)
    ensures FilePool(files, a + b) == FilePool(files, a) + FilePool(files, b)
    decreases |b|
  {
    if b == [] {
      assert a + b == a;
    } else {
      var b' := b[..|b| - 1];
      var last := b[|b| - 1];
      var ab := a + b;
      assert ab[..|ab| - 1] == a + b';
      assert ab[|ab| - 1] == last;
      var tail := WordsOfFile(files, last);
      assert FilePool(files, ab) == FilePool(files, a + b') + tail;
      assert FilePool(files, b) == FilePool(files, b') + tail;
      FilePoolAppend(files, a, b');
    }
  }

  /** An id that names no file can be dropped from the selection without
      changing the pool. */
  lemma UnmatchedIdSkipped(files: seq<VocabFile>, before: seq<string>, id: string, after: seq<string>)
    requires forall f :: f in files ==> f.id != id
    ensures FilePool(files, before + [id] + after) == FilePool(files, before + after)
  {
    FilePoolAppend(files, before + [id], after);
    FilePoolAppend(files, before, after);
    WordsOfFoundFile(files, id);
    assert (before + [id])[..|before + [id]| - 1] == before;
    assert FilePool(files, before + [id]) == FilePool(files, before) + [];
  }

  /** A word is in the file pool iff some selected id names a file (the first
      with that id) that holds it. */
  lemma {:induction false} FilePoolMembers(files: seq<VocabFile>, ids: seq<string>, w: Word)
    ensures w in FilePool(files, ids) <==> exists k :: 0 <= k < |ids| && w in WordsOfFile(files, ids[k])
    decreases |ids|
  {
    if ids != [] {
      var init := ids[..|ids| - 1];
      FilePoolMembers(files, init, w);
      if w in FilePool(files, ids) {
        if w in FilePool(files, init) {
          var k :| 0 <= k < |init| && w in WordsOfFile(files, init[k]);
          assert ids[k] == init[k];
        } else {
          assert w in WordsOfFile(files, ids[|ids| - 1]);
        }
      }
      if exists k :: 0 <= k < |ids| && w in WordsOfFile(files, ids[k]) {
        var k :| 0 <= k < |ids| && w in WordsOfFile(files, ids[k]);
        if k < |init| {
          assert init[k] == ids[k];
        }
      }
    }
  }

  /** The `forEach` over the selected ids that pushes each file's words. */
  method BuildPool(settings: QuizSettings, files: seq<VocabFile>, history: seq<AnswerRecord>)
    returns (pool: seq<Word>)
    ensures pool == Pool(settings, files, history)
  {
    if settings.weakWordsOnly {
      pool := GetWeakWords(files, history);
      return;
    }
    var ids := settings.fileIds;
    pool := [];
    var i := 0;
    while i < |ids|
      invariant 0 <= i <= |ids|
      invariant pool == FilePool(files, ids[..i])
    {
      assert ids[..i + 1][..i] == ids[..i];
      var file := FindFile(files, ids[i]);
      WordsOfFoundFile(files, ids[i]);
      if file.Some? {
        pool := pool + file.value.words;
      }
      i := i + 1;
    }
    assert ids[..i] == ids;
  }

  // ---- unasked words first ----

  /** Every word id that has a record in the full history. */
  function AskedIds(history: seq<AnswerRecord>): set<string> {
    set r | r in history :: r.wordId
  }

  function IsUnasked(history: seq<AnswerRecord>): Word -> bool {
    (w: Word) => w.id !in AskedIds(history)
  }

  function IsAsked(history: seq<AnswerRecord>): Word -> bool {
    (w: Word) => w.id in AskedIds(history)
  }

  /** `[...shuffledUnasked, ...shuffledAsked]`. */
  function QuestionOrder(pool: seq<Word>, history: seq<AnswerRecord>,
                         unaskedDraws: seq<nat>, askedDraws: seq<nat>): seq<Word>
  {
    Shuffle(Filter(pool, IsUnasked(history)), unaskedDraws)
      + Shuffle(Filter(pool, IsAsked(history)), askedDraws)
  }

  /** The ordered words are a permutation of the pool. */
  lemma QuestionOrderPermutes(pool: seq<Word>, history: seq<AnswerRecord>,
                              unaskedDraws: seq<nat>, askedDraws: seq<nat>)
    ensures multiset(QuestionOrder(pool, history, unaskedDraws, askedDraws)) == multiset(pool)
  {
    FilterPartition(pool, IsUnasked(history), IsAsked(history));
  }

  /** In the order, every word never answered before comes ahead of every
      word answered before. */
  lemma UnaskedFirst(pool: seq<Word>, history: seq<AnswerRecord>,
                     unaskedDraws: seq<nat>, askedDraws: seq<nat>)
    ensures var order := QuestionOrder(pool, history, unaskedDraws, askedDraws);
      forall i, j :: 0 <= i < |order| && 0 <= j < |order|
        && order[i].id !in AskedIds(history) && order[j].id in AskedIds(history)
        ==> i < j
  {
    var unasked := Filter(pool, IsUnasked(history));
    var asked := Filter(pool, IsAsked(history));
    var order := QuestionOrder(pool, history, unaskedDraws, askedDraws);
    var front := Shuffle(unasked, unaskedDraws);
    var back := Shuffle(asked, askedDraws);
    forall j | |front| <= j < |order| ensures order[j].id in AskedIds(history) {
      assert order[j] == back[j - |front|];
      ShuffleMembers(asked, askedDraws, back[j - |front|]);
    }
    forall i | 0 <= i < |front| ensures order[i].id !in AskedIds(history) {
      assert order[i] == front[i];
      ShuffleMembers(unasked, unaskedDraws, front[i]);
    }
  }

  /** The order holds as many words as the pool. */
  lemma OrderLength(pool: seq<Word>, history: seq<AnswerRecord>,
                    unaskedDraws: seq<nat>, askedDraws: seq<nat>)
    ensures |QuestionOrder(pool, history, unaskedDraws, askedDraws)| == |pool|
  {
    QuestionOrderPermutes(pool, history, unaskedDraws, askedDraws);
    assert |multiset(QuestionOrder(pool, history, unaskedDraws, askedDraws))| == |multiset(pool)|;
  }

  /** The ordered words are a permutation of the pool in which every word
      never answered before comes ahead of every word answered before. */
  lemma QuestionOrderSpec(pool: seq<Word>, history: seq<AnswerRecord>,
                          unaskedDraws: seq<nat>, askedDraws: seq<nat>)
    ensures var order := QuestionOrder(pool, history, unaskedDraws, askedDraws);
      && multiset(order) == multiset(pool)
      && forall i, j :: 0 <= i < |order| && 0 <= j < |order|
           && order[i].id !in AskedIds(history) && order[j].id in AskedIds(history)
           ==> i < j
  {
    QuestionOrderPermutes(pool, history, unaskedDraws, askedDraws);
    UnaskedFirst(pool, history, unaskedDraws, askedDraws);
  }

  // ---- truncation ----

  /** `numberOfQuestions === 'all' ? length : Math.min(numberOfQuestions, length)`. */
  function QuestionTotal(n: QuestionCount, available: nat): nat {
    match n
    case All => available
    case Limit(k) => if k < available then k else available
  }

  /** The session asks min(n, |pool|) questions, or all of them. */
  lemma QuestionTotalSpec(n: QuestionCount, available: nat)
    ensures QuestionTotal(n, available) <= available
    ensures n.All? ==> QuestionTotal(n, available) == available
    ensures n.Limit? ==> QuestionTotal(n, available) == n.n || QuestionTotal(n, available) == available
    ensures n.Limit? && n.n <= available ==> QuestionTotal(n, available) == n.n
  {
  }

  // ---- question type and options ----

  /** The random choices each question consumes: the type index and the two
      shuffles for its options. */
  datatype Coins = Coins(typeDraw: nat, distractorDraws: seq<nat>, optionDraws: seq<nat>)

  function Differs(id: string): Word -> bool {
    (w: Word) => w.id != id
  }

  function Min(a: nat, b: nat): nat {
    if a < b then a else b
  }

  /** `[...wordPool].filter(w => w.id !== word.id).sort(random).slice(0, 3)`. */
  function Distractors(pool: seq<Word>, word: Word, draws: seq<nat>): seq<Word> {
    var others := Filter(pool, Differs(word.id));
    Shuffle(others, draws)[..Min(3, |others|)]
  }

  /** One generated question: the type drawn from the selected types; for a
      multiple-choice type, the word and its distractors in shuffled order. */
  function MakeQuestion(word: Word, pool: seq<Word>, types: seq<QuestionType>, c: Coins): Question
    requires |types| > 0
  {
    var kind := types[c.typeDraw % |types|];
    var options := if IsMultipleChoice(kind) then Shuffle([word] + Distractors(pool, word, c.distractorDraws), c.optionDraws) else [];
    Question(word, kind, options)
  }

  /** `finalQuestionWords.map(...)`; question `i` uses the draws `coin(i)`. */
  function MakeQuestions(words: seq<Word>, pool: seq<Word>, types: seq<QuestionType>, coin: nat -> Coins): seq<Question>
    requires |types| > 0
  {
    seq(|words|, i requires 0 <= i < |words| => MakeQuestion(words[i], pool, types, coin(i)))
  }

  /** The questions the session starts with, or none. */
  function Generate(settings: QuizSettings, pool: seq<Word>, history: seq<AnswerRecord>,
                    unaskedDraws: seq<nat>, askedDraws: seq<nat>, coin: nat -> Coins): seq<Question>
    requires |settings.questionTypes| > 0
  {
    var order := QuestionOrder(pool, history, unaskedDraws, askedDraws);
    MakeQuestions(order[..QuestionTotal(settings.numberOfQuestions, |order|)], pool, settings.questionTypes, coin)
  }

  lemma DistractorsSpec(pool: seq<Word>, word: Word, draws: seq<nat>)
    ensures var d := Distractors(pool, word, draws);
      && |d| == Min(3, Count(pool, Differs(word.id)))
      && forall x :: x in d ==> x in pool && x.id != word.id
  {
    var others := Filter(pool, Differs(word.id));
    var d := Distractors(pool, word, draws);
    forall x | x in d ensures x in pool && x.id != word.id {
      ShuffleMembers(others, draws, x);
    }
  }

  /** A value that occurs once, and is the only element with its id, sits at
      exactly one position carrying that id. */
  lemma SingleId(o: seq<Word>, word: Word)
    requires multiset(o)[word] == 1
    requires forall x :: x in o && x.id == word.id ==> x == word
    ensures forall i, j :: 0 <= i < |o| && 0 <= j < |o| && o[i].id == word.id && o[j].id == word.id ==> i == j
  {
    forall i, j | 0 <= i < |o| && 0 <= j < |o| && o[i].id == word.id && o[j].id == word.id
      ensures i == j
    {
      if i != j {
        assert o[i] == word && o[j] == word;
        if i < j { TwoPositions(o, i, j); } else { TwoPositions(o, j, i); }
      }
    }
  }

  /** The shuffled options hold the word once and the distractors. */
  lemma OptionsShape(word: Word, d: seq<Word>, draws: seq<nat>)
    requires forall x :: x in d ==> x.id != word.id
    ensures var o := Shuffle([word] + d, draws);
      && |o| == 1 + |d|
      && word in o
      && (forall x :: x in o ==> x == word || x in d)
      && (forall i, j :: 0 <= i < |o| && 0 <= j < |o| && o[i].id == word.id && o[j].id == word.id ==> i == j)
  {
    var o := Shuffle([word] + d, draws);
    forall x | x in o ensures x == word || x in d {
      assert x in multiset([word] + d);
    }
    assert word in multiset(o);
    assert multiset(d)[word] == 0;
    assert multiset(o)[word] == 1;
    SingleId(o, word);
  }

  /** A multiple-choice question offers its word exactly once among at most
      four options, every other option being a pool word with another id;
      other question types have no options. The type is one of the
      selected types. */
  lemma MakeQuestionSpec(word: Word, pool: seq<Word>, types: seq<QuestionType>, c: Coins)
    requires |types| > 0
    ensures var q := MakeQuestion(word, pool, types, c);
      && q.word == word
      && q.kind in types
      && (!IsMultipleChoice(q.kind) ==> q.options == [])
      && (IsMultipleChoice(q.kind) ==>
            && |q.options| == 1 + Min(3, Count(pool, Differs(word.id)))
            && |q.options| <= 4
            && word in q.options
            && (forall x :: x in q.options ==> x == word || (x in pool && x.id != word.id))
            && (forall i, j :: 0 <= i < |q.options| && 0 <= j < |q.options|
                  && q.options[i].id == word.id && q.options[j].id == word.id
                  ==> i == j))
  {
    var q := MakeQuestion(word, pool, types, c);
    if IsMultipleChoice(q.kind) {
      var d := Distractors(pool, word, c.distractorDraws);
      DistractorsSpec(pool, word, c.distractorDraws);
      OptionsShape(word, d, c.optionDraws);
    }
  }

  /** The generated questions: as many as the truncation allows, question i
      asking the i-th ordered word, each shaped as `MakeQuestionSpec` says. */
  lemma GenerateSpec(settings: QuizSettings, pool: seq<Word>, history: seq<AnswerRecord>,
                     unaskedDraws: seq<nat>, askedDraws: seq<nat>, coin: nat -> Coins)
    requires |settings.questionTypes| > 0
    ensures var qs := Generate(settings, pool, history, unaskedDraws, askedDraws, coin);
      var order := QuestionOrder(pool, history, unaskedDraws, askedDraws);
      && |qs| == QuestionTotal(settings.numberOfQuestions, |pool|)
      && (forall i :: 0 <= i < |qs| ==> qs[i].word == order[i] && qs[i].word in pool)
      && (forall i :: 0 <= i < |qs| ==> qs[i].kind in settings.questionTypes)
      && (pool == [] ==> qs == [])
  {
    var order := QuestionOrder(pool, history, unaskedDraws, askedDraws);
    QuestionOrderPermutes(pool, history, unaskedDraws, askedDraws);
    OrderLength(pool, history, unaskedDraws, askedDraws);
    var qs := Generate(settings, pool, history, unaskedDraws, askedDraws, coin);
    forall i | 0 <= i < |qs| ensures qs[i].word == order[i] && qs[i].word in pool
                                && qs[i].kind in settings.questionTypes {
      MakeQuestionSpec(order[i], pool, settings.questionTypes, coin(i));
      assert order[i] in multiset(pool);
    }
  }
}
