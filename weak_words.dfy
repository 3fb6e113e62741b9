/** Weak-word selection (`getWeakWords` in src/components/quiz/QuizManager.tsx):
    count answers per word id over the history of words that still exist, and
    keep the known words that were answered wrongly at least half the time. */
module WeakWords {
  import opened Types
  import opened Seqs

  /** The ids of every word of every current file. */
  function KnownIds(files: seq<VocabFile>): set<string> {
    set w | w in AllWords(files) :: w.id
  }

  function IsKnown(files: seq<VocabFile>): AnswerRecord -> bool {
    (r: AnswerRecord) => r.wordId in KnownIds(files)
  }

  /** `history.filter(h => allKnownWordIds.has(h.wordId))`. */
  function Relevant(files: seq<VocabFile>, history: seq<AnswerRecord>): seq<AnswerRecord> {
    Filter(history, IsKnown(files))
  }

  /** The number of records about word `id`. */
  function Total(history: seq<AnswerRecord>, id: string): nat {
    if history == [] then 0
    else Total(history[..|history| - 1], id) + (if history[|history| - 1].wordId == id then 1 else 0)
  }

  /** The number of correct answers recorded for word `id`. */
  function Correct(history: seq<AnswerRecord>, id: string): nat {
    if history == [] then 0
    else
      var last := history[|history| - 1];
      Correct(history[..|history| - 1], id) + (if last.wordId == id && last.correct then 1 else 0)
  }

  /** `stats` in the source: one tally per word id met in the history. */
  datatype Tally = Tally(correct: nat, total: nat)

  /** The threshold test: `incorrectRate >= 0.5 && (total - correct) > 0`,
      where `incorrectRate` is `(total - correct) / total`, or 0 without
      attempts. Exact integer arithmetic gives the same answer as the
      floating-point division for every count below 2^53. */
  predicate WeakTally(t: Tally) {
    var incorrect := t.total - t.correct;
    (if t.total > 0 then 2 * incorrect >= t.total else false) && incorrect > 0
  }

  /** The id qualifies over `history` (the relevant history). */
  predicate IsWeakId(history: seq<AnswerRecord>, id: string) {
    WeakTally(Tally(Correct(history, id), Total(history, id)))
  }

  function WeakFilter(history: seq<AnswerRecord>): Word -> bool {
    (w: Word) => IsWeakId(history, w.id)
  }

  /** The words `getWeakWords` returns: all files' words, in flatMap order,
      whose id qualifies over the relevant history. */
  function WeakWordsOf(files: seq<VocabFile>, history: seq<AnswerRecord>): seq<Word> {
    Filter(AllWords(files), WeakFilter(Relevant(files, history)))
  }

  lemma {:induction false} CorrectAtMostTotal(history: seq<AnswerRecord>, id: string)
    ensures Correct(history, id) <= Total(history, id)
    decreases |history|
  {
    if history != [] {
      var init := history[..|history| - 1];
      assert history == init + [history[|history| - 1]];
      CorrectAtMostTotal(init, id);
    }
  }

  /** The counts of a known word are the same over the relevant history and
      over the whole history. */
  lemma {:induction false} RelevantCounts(files: seq<VocabFile>, history: seq<AnswerRecord>, id: string)
    requires id in KnownIds(files)
    ensures Total(Relevant(files, history), id) == Total(history, id)
    ensures Correct(Relevant(files, history), id) == Correct(history, id)
    decreases |history|
  {
    if history != [] {
      var init := history[..|history| - 1];
      var last := history[|history| - 1];
      assert history == init + [last];
      RelevantCounts(files, init, id);
      FilterSnoc(init, last, IsKnown(files));
      if last.wordId in KnownIds(files) {
        assert Relevant(files, history) == Relevant(files, init) + [last];
        CountsSnoc(Relevant(files, init), last, id);
      } else {
        assert Relevant(files, history) == Relevant(files, init);
        assert last.wordId != id;
      }
    }
  }

  /** A word is weak iff it belongs to a current file, was answered at least
      once, and at least half of its answers were wrong. */
  lemma WeakIffThreshold(files: seq<VocabFile>, history: seq<AnswerRecord>, w: Word)
    ensures w in WeakWordsOf(files, history) <==>
      && w in AllWords(files)
      && Total(history, w.id) >= 1
      && 2 * (Total(history, w.id) - Correct(history, w.id)) >= Total(history, w.id)
  {
    if w in AllWords(files) {
      assert w.id in KnownIds(files);
      RelevantCounts(files, history, w.id);
      CorrectAtMostTotal(history, w.id);
    }
  }

  /** Words never answered, and words never answered wrongly, are not weak. */
  lemma NeverWeakWithoutMistakes(files: seq<VocabFile>, history: seq<AnswerRecord>, w: Word)
    requires Correct(history, w.id) == Total(history, w.id)
    ensures w !in WeakWordsOf(files, history)
  {
    WeakIffThreshold(files, history, w);
  }

  /** Only the records of current words matter: dropping every record of a
      word that no current file holds, wherever it sits, changes nothing. */
  lemma OrphanRecordsIgnored(files: seq<VocabFile>, history: seq<AnswerRecord>)
    ensures WeakWordsOf(files, Relevant(files, history)) == WeakWordsOf(files, history)
  {
    var relevant := Relevant(files, history);
    assert forall i :: 0 <= i < |relevant| ==> IsKnown(files)(relevant[i]) by {
      forall i | 0 <= i < |relevant| ensures IsKnown(files)(relevant[i]) {
        assert relevant[i] in relevant;
      }
    }
    FilterAll(relevant, IsKnown(files));
  }

  /** Records of deleted words between any two stretches of the history
      change nothing. */
  lemma OrphanRecordsAnywhere(files: seq<VocabFile>, before: seq<AnswerRecord>,
                              orphans: seq<AnswerRecord>, after: seq<AnswerRecord>)
    requires forall i :: 0 <= i < |orphans| ==> orphans[i].wordId !in KnownIds(files)
    ensures WeakWordsOf(files, before + orphans + after) == WeakWordsOf(files, before + after)
  {
    var p := IsKnown(files);
    FilterAppend(before + orphans, after, p);
    FilterAppend(before, orphans, p);
    FilterNone(orphans, p);
    FilterAppend(before, after, p);
    assert Filter(before, p) + [] == Filter(before, p);
  }

  /** The quiz shows its "no word lists" screen when there are no files and
      no weak words; that is the same as there being no files. */
  lemma NoWordListsScreen(files: seq<VocabFile>, history: seq<AnswerRecord>)
    ensures (files == [] && WeakWordsOf(files, history) == []) <==> files == []
  {
  }

  lemma CountsSnoc(records: seq<AnswerRecord>, record: AnswerRecord, id: string)
    ensures Total(records + [record], id) == Total(records, id) + (if record.wordId == id then 1 else 0)
    ensures Correct(records + [record], id)
         == Correct(records, id) + (if record.wordId == id && record.correct then 1 else 0)
  {
    assert (records + [record])[..|records|] == records;
  }

  /** `stats` holds one tally per word id met in `records`, and no other key. */
  ghost predicate TalliesOf(stats: map<string, Tally>, records: seq<AnswerRecord>) {
    && (forall id :: id in stats <==> Total(records, id) > 0)
    && (forall id :: id in stats ==> stats[id] == Tally(Correct(records, id), Total(records, id)))
  }

  lemma TallyOne(stats: map<string, Tally>, records: seq<AnswerRecord>, record: AnswerRecord, tally: Tally)
    requires TalliesOf(stats, records)
    requires tally == (var t := if record.wordId in stats then stats[record.wordId] else Tally(0, 0);
                       Tally(if record.correct then t.correct + 1 else t.correct, t.total + 1))
    ensures TalliesOf(stats[record.wordId := tally], records + [record])
  {
    CorrectAtMostTotal(records, record.wordId);
    forall id {
      CountsSnoc(records, record, id);
    }
  }

  /** The `forEach` that fills `wordStats`: one tally per word id met. */
  method CountAnswers(records: seq<AnswerRecord>) returns (stats: map<string, Tally>)
    ensures TalliesOf(stats, records)
  {
    stats := map[];
    var i := 0;
    while i < |records|
      invariant 0 <= i <= |records|
      invariant TalliesOf(stats, records[..i])
    {
      var record := records[i];
      assert records[..i + 1] == records[..i] + [record];
      ghost var before := stats;
      if record.wordId !in stats {
        stats := stats[record.wordId := Tally(0, 0)];
      }
      var tally := stats[record.wordId];
      tally := tally.(total := tally.total + 1);
      if record.correct {
        tally := tally.(correct := tally.correct + 1);
      }
      TallyOne(before, records[..i], record, tally);
      stats := stats[record.wordId := tally];
      assert stats == before[record.wordId := tally];
      i := i + 1;
    }
    assert records[..i] == records;
  }

  /** A word id passes the threshold on the tallies iff it does on the records. */
  lemma WeakIdFromTallies(stats: map<string, Tally>, records: seq<AnswerRecord>, id: string)
    requires TalliesOf(stats, records)
    ensures (id in stats && WeakTally(stats[id])) <==> IsWeakId(records, id)
  {
  }

  /** `getWeakWords`: tally the relevant history, collect the ids whose
      tally qualifies, then keep the words with those ids. */
  method GetWeakWords(files: seq<VocabFile>, history: seq<AnswerRecord>) returns (weak: seq<Word>)
    ensures weak == WeakWordsOf(files, history)
  {
    var relevant := Relevant(files, history);
    var stats := CountAnswers(relevant);
    var weakIds := set id | id in stats && WeakTally(stats[id]);
    forall id ensures id in weakIds <==> IsWeakId(relevant, id) {
      WeakIdFromTallies(stats, relevant, id);
    }
    weak := KeepWeak(AllWords(files), weakIds, relevant);
  }

  /** `allWords.filter(word => weakWordIds.has(word.id))`. */
  method KeepWeak(words: seq<Word>, weakIds: set<string>, ghost relevant: seq<AnswerRecord>) returns (weak: seq<Word>)
    requires forall id :: id in weakIds <==> IsWeakId(relevant, id)
    ensures weak == Filter(words, WeakFilter(relevant))
  {
    weak := [];
    var j := 0;
    while j < |words|
      invariant 0 <= j <= |words|
      invariant weak == Filter(words[..j], WeakFilter(relevant))
    {
      var w := words[j];
      assert words[..j + 1] == words[..j] + [w];
      FilterSnoc(words[..j], w, WeakFilter(relevant));
      if w.id in weakIds {
        weak := weak + [w];
      }
      j := j + 1;
    }
    assert words[..j] == words;
  }
}
