/** The overall answer split on the statistics page
    (src/components/stats/WeakWordsChart.tsx): correct against incorrect
    records, and the share of correct ones. */
module WeakWordsChart {
  import opened Types
  import opened Seqs
  import opened Percent

  function Answered(correct: bool): AnswerRecord -> bool {
    (r: AnswerRecord) => r.correct == correct
  }

  /** The two slices of the pie. */
  datatype Split = Split(correct: nat, incorrect: nat)

  /** `history.filter(h => h.correct).length` and the remainder. */
  function SplitOf(history: seq<AnswerRecord>): Split {
    var correct := Count(history, Answered(true));
    Split(correct, |history| - correct)
  }

  /** What is drawn: nothing for an empty history, otherwise the split with
      the rounded share of correct answers in its centre. */
  datatype Pie = NoData | Chart(split: Split, percent: nat)

  function PieOf(history: seq<AnswerRecord>): Pie {
    if |history| == 0 then NoData
    else
      var split := SplitOf(history);
      Chart(split, RoundPercent(split.correct, |history|))
  }

  /** The slices count the correct and the wrong records and together cover
      the history. */
  lemma {:induction false} SplitSpec(history: seq<AnswerRecord>)
    ensures SplitOf(history).correct + SplitOf(history).incorrect == |history|
    ensures SplitOf(history).incorrect == Count(history, Answered(false))
    decreases |history|
  {
    if history != [] {
      var init := history[..|history| - 1];
      var last := history[|history| - 1];
      assert history == init + [last];
      SplitSpec(init);
      FilterSnoc(init, last, Answered(true));
      FilterSnoc(init, last, Answered(false));
    }
  }

  /** The placeholder shows exactly for an empty history; otherwise the
      centre figure is a percentage, 100 when every record is correct and 0
      when none is. */
  lemma PieSpec(history: seq<AnswerRecord>)
    ensures PieOf(history) == NoData <==> history == []
    ensures PieOf(history).Chart? ==> PieOf(history).percent <= 100
    ensures PieOf(history).Chart? && (forall i :: 0 <= i < |history| ==> history[i].correct)
      ==> PieOf(history).percent == 100
    ensures PieOf(history).Chart? && (forall i :: 0 <= i < |history| ==> !history[i].correct)
      ==> PieOf(history).percent == 0
  {
    if forall i :: 0 <= i < |history| ==> history[i].correct {
      FilterAll(history, Answered(true));
    }
    if forall i :: 0 <= i < |history| ==> !history[i].correct {
      FilterNone(history, Answered(true));
    }
  }
}
