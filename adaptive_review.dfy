/** The review of wrongly answered words (src/components/quiz/AdaptiveReview.tsx):
    a shuffled queue that grows by the current word on every wrong answer,
    each entry asked as a typing question, and no history written. */
module AdaptiveReview {
  import opened Types
  import opened Shuffling

  /** The review state after one answer. */
  datatype ReviewState = ReviewState(queue: seq<Word>, index: nat, finished: bool)

  /** A wrong answer puts the current word at the end of the queue. */
  function Requeue(queue: seq<Word>, index: nat, isCorrect: bool): (r: seq<Word>)
    requires index < |queue|
    ensures isCorrect ==> r == queue
    ensures !isCorrect ==> r == queue + [queue[index]]
  {
    if isCorrect then queue else queue + [queue[index]]
  }

  /** `handleAnswer` as written: the timer callback compares the index with
      the length of the queue the handler was created with, which is the
      length before the append. */
  function AdvanceAsWritten(queue: seq<Word>, index: nat, isCorrect: bool): ReviewState
    requires index < |queue|
  {
    var next := Requeue(queue, index, isCorrect);
    if index < |queue| - 1 then ReviewState(next, index + 1, false) else ReviewState(next, index, true)
  }

  /** `handleAnswer` as intended: the comparison uses the queue after the
      append, so a word answered wrongly is always asked again. */
  function Advance(queue: seq<Word>, index: nat, isCorrect: bool): ReviewState
    requires index < |queue|
  {
    var next := Requeue(queue, index, isCorrect);
    if index < |next| - 1 then ReviewState(next, index + 1, false) else ReviewState(next, index, true)
  }

  /** As written, a wrong answer on the last entry appends the word and ends
      the review anyway: with the queue [a, b], answering a correctly and b
      wrongly finishes while b is still waiting at the end of the queue. */
  lemma StaleLengthSkipsRequeuedWord(a: Word, b: Word)
    ensures var s1 := AdvanceAsWritten([a, b], 0, true);
      && s1 == ReviewState([a, b], 1, false)
      && var s2 := AdvanceAsWritten(s1.queue, s1.index, false);
      && s2.finished && s2.queue == [a, b, b] && s2.index == 1
      && s2.index < |s2.queue| - 1
  {
  }

  /** The two agree except on a wrong answer to the last entry, where only the
      intended step asks the word again. */
  lemma AdvanceCompared(queue: seq<Word>, index: nat, isCorrect: bool)
    requires index < |queue|
    ensures isCorrect || index < |queue| - 1 ==> Advance(queue, index, isCorrect) == AdvanceAsWritten(queue, index, isCorrect)
    ensures !isCorrect && index == |queue| - 1 ==>
      && AdvanceAsWritten(queue, index, isCorrect).finished
      && Advance(queue, index, isCorrect) == ReviewState(queue + [queue[index]], index + 1, false)
  {
  }

  /** With the intended step the queue only grows, the index never goes back
      and stays within the queue, a wrong answer never ends the review, and
      the review ends only on a correct answer to the last entry. */
  lemma AdvanceSpec(queue: seq<Word>, index: nat, isCorrect: bool)
    requires index < |queue|
    ensures var s := Advance(queue, index, isCorrect);
      && |s.queue| >= |queue| && s.queue[..|queue|] == queue
      && index <= s.index < |s.queue|
      && (!isCorrect ==> !s.finished && s.queue[|s.queue| - 1] == queue[index] && s.index == index + 1)
      && (s.finished <==> isCorrect && index == |queue| - 1)
      && (!s.finished ==> s.index == index + 1)
  {
  }

  /** After a wrong answer on the last entry, the intended step moves on to
      the copy just appended: the same word, with the same id. A widget keyed
      by the word id is therefore not remounted for it, so the intended step
      also needs a key or a reset per queue position. */
  lemma RequeuedLastKeepsKey(queue: seq<Word>, index: nat)
    requires index == |queue| - 1
    ensures var s := Advance(queue, index, false);
      && !s.finished && s.index == index + 1
      && s.queue[s.index] == queue[index] && s.queue[s.index].id == queue[s.index - 1].id
  {
  }

  /** The same frame facts hold for the step as written. */
  lemma AdvanceAsWrittenSpec(queue: seq<Word>, index: nat, isCorrect: bool)
    requires index < |queue|
    ensures var s := AdvanceAsWritten(queue, index, isCorrect);
      && |s.queue| >= |queue| && s.queue[..|queue|] == queue
      && index <= s.index < |s.queue|
      && (s.finished <==> index == |queue| - 1)
  {
  }

  /** Each entry is shown as a typing question without options. */
  function ReviewQuestion(w: Word): (q: Question)
    ensures q.word == w && q.kind == JpToEnTyping && q.options == []
    ensures !IsMultipleChoice(q.kind)
  {
    Question(w, JpToEnTyping, [])
  }

  /** What the component shows. */
  datatype View = Done | Ask(question: Question) | Leave

  /** The component's state. `mastered` records the words answered correctly,
      and `words` the words the review started with. */
  class Review {
    var queue: seq<Word>
    var index: nat
    var finished: bool
    ghost const words: seq<Word>
    ghost var mastered: set<Word>

    /** Every starting word is either mastered or still ahead in the queue;
        once the review is done, every starting word is mastered. */
    ghost predicate Valid()
      reads this
    {
      && index <= |queue|
      && (!finished ==> index < |queue| || queue == [])
      && (finished ==> index < |queue|)
      && (forall w :: w in words ==> w in mastered || (!finished && w in queue[index..]))
    }

    /** The first render: the queue is a shuffle of the words. */
    constructor(input: seq<Word>, draws: seq<nat>)
      ensures Valid()
      ensures multiset(queue) == multiset(input) && index == 0 && !finished
      ensures words == input && mastered == {}
    {
      queue := Shuffle(input, draws);
      index := 0;
      finished := false;
      words := input;
      mastered := {};
      new;
      forall w | w in words ensures w in queue[index..] {
        ShuffleMembers(input, draws, w);
        assert queue[0..] == queue;
      }
    }

    /** The render: the finish card, the current word, or (for an empty
        list) a call of `onFinish` with nothing shown. */
    method Show() returns (v: View)
      requires Valid()
      ensures finished ==> v == Done
      ensures !finished && queue == [] ==> v == Leave
      ensures !finished && queue != [] ==> v == Ask(ReviewQuestion(queue[index]))
    {
      if finished {
        return Done;
      }
      if index >= |queue| {
        return Leave;
      }
      v := Ask(ReviewQuestion(queue[index]));
    }

    /** `handleAnswer` with the intended finish check; its timer ends at
        once here. */
    method Answer(isCorrect: bool)
      requires Valid() && !finished && queue != []
      modifies this
      ensures Valid()
      ensures ReviewState(queue, index, finished) == Advance(old(queue), old(index), isCorrect)
      ensures mastered == if isCorrect then old(mastered) + {old(queue)[old(index)]} else old(mastered)
      ensures finished ==> forall w :: w in words ==> w in mastered
    {
      var current := queue[index];
      ghost var before := queue;
      ghost var at := index;
      AdvanceSpec(queue, index, isCorrect);
      if !isCorrect {
        queue := queue + [current];
      } else {
        mastered := mastered + {current};
      }
      if index < |queue| - 1 {
        index := index + 1;
      } else {
        finished := true;
      }
      forall w | w in words ensures w in mastered || (!finished && w in queue[index..]) {
        if w !in mastered {
          assert w in before[at..];
          var k :| at <= k < |before| && before[k] == w;
          if k == at {
            assert !isCorrect;
            assert queue[|queue| - 1] == w;
          } else {
            assert queue[k] == w;
          }
        }
      }
    }
  }
}
