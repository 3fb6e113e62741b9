/** The typed-answer widget (src/components/quiz/TypingQuestion.tsx): the
    answer check, the optional tap-to-continue pause after a wrong answer,
    and the "don't know" button. Every handler returns the verdict it
    reports to its parent through `onAnswer`, or `None` when it reports
    nothing. */
module TypingQuestion {
  import opened Types
  import opened Text

  /** `inputValue.trim().toLowerCase() === word.english.toLowerCase()`. */
  predicate IsCorrectAnswer(input: string, english: string) {
    Lower(Trim(input)) == Lower(english)
  }

  /** Whitespace the learner types around the answer makes no difference. */
  lemma SurroundingWhiteForgiven(ws: string, input: string, ws': string, english: string)
    requires AllWhite(ws) && AllWhite(ws')
    ensures IsCorrectAnswer(ws + input + ws', english) <==> IsCorrectAnswer(input, english)
  {
    SurroundingWhiteIgnored(ws, input, ws');
  }

  /** The check ignores the case of ASCII letters on both sides. */
  lemma CaseForgiven(input: string, english: string)
    ensures IsCorrectAnswer(input, english) <==> IsCorrectAnswer(input, Lower(english))
    ensures IsCorrectAnswer(input, english) <==> IsCorrectAnswer(Lower(input), english)
  {
    LowerIdempotent(english);
    LowerTrimCommute(input);
  }

  lemma LowerKeepsWhite(c: char)
    ensures IsWhite(LowerChar(c)) <==> IsWhite(c)
  {
  }

  lemma {:induction false} LowerTrimCommute(s: string)
    ensures Lower(Trim(Lower(s))) == Lower(Trim(s))
  {
    LowerIdempotent(Trim(s));
    TrimLower(s);
  }

  lemma {:induction false} TrimStartLower(s: string)
    ensures TrimStart(Lower(s)) == Lower(TrimStart(s))
    decreases |s|
  {
    if s != [] {
      LowerKeepsWhite(s[0]);
      assert Lower(s)[1..] == Lower(s[1..]);
      TrimStartLower(s[1..]);
    }
  }

  lemma {:induction false} TrimEndLower(s: string)
    ensures TrimEnd(Lower(s)) == Lower(TrimEnd(s))
    decreases |s|
  {
    if s != [] {
      LowerKeepsWhite(s[|s| - 1]);
      assert Lower(s)[..|s| - 1] == Lower(s[..|s| - 1]);
      TrimEndLower(s[..|s| - 1]);
    }
  }

  lemma TrimLower(s: string)
    ensures Trim(Lower(s)) == Lower(Trim(s))
  {
    TrimStartLower(s);
    TrimEndLower(TrimStart(s));
  }

  /** The English side is not trimmed: an English answer that ends in
      whitespace is never matched by a non-blank input. */
  lemma TrailingWhiteNeverMatches(input: string, english: string)
    requires english != [] && IsWhite(english[|english| - 1])
    ensures !IsCorrectAnswer(input, english)
  {
    var t := Trim(input);
    LowerKeepsWhite(english[|english| - 1]);
    if t != [] {
      LowerKeepsWhite(t[|t| - 1]);
      assert Lower(t)[|t| - 1] == LowerChar(t[|t| - 1]);
    }
  }

  /** The widget's state; `hasSkip` says whether the parent passed `onSkip`. */
  class TypingWidget {
    var word: Word
    const hasSkip: bool
    var input: string
    var answered: bool
    var verdict: Option<bool>
    var showTapToContinue: bool

    /** The pause is only ever shown after a wrong answer. */
    ghost predicate Valid()
      reads this
    {
      && (verdict.Some? ==> answered)
      && (showTapToContinue ==> answered && verdict == Some(false))
    }

    constructor(w: Word, skip: bool)
      ensures Valid()
      ensures word == w && hasSkip == skip
      ensures input == [] && !answered && verdict == None && !showTapToContinue
    {
      word := w;
      hasSkip := skip;
      input := [];
      answered := false;
      verdict := None;
      showTapToContinue := false;
    }

    /** The effect that runs for each new word: clear everything. */
    method ShowWord(w: Word)
      modifies this
      ensures Valid()
      ensures word == w
      ensures input == [] && !answered && verdict == None && !showTapToContinue
    {
      word := w;
      input := [];
      answered := false;
      verdict := None;
      showTapToContinue := false;
    }

    /** Typing into the field. */
    method Edit(text: string)
      requires Valid()
      modifies this
      ensures Valid()
      ensures input == text
      ensures word == old(word) && answered == old(answered) && verdict == old(verdict)
      ensures showTapToContinue == old(showTapToContinue)
    {
      input := text;
    }

    /** `handleSubmit`, with the current tap-to-continue setting. */
    method Submit(tapToContinue: bool) returns (report: Option<bool>)
      requires Valid()
      modifies this
      ensures Valid()
      ensures word == old(word) && input == old(input)
      ensures old(answered) || Trim(old(input)) == [] ==>
        && report == None && answered == old(answered) && verdict == old(verdict)
        && showTapToContinue == old(showTapToContinue)
      ensures !old(answered) && Trim(old(input)) != [] ==>
        var correct := IsCorrectAnswer(old(input), word.english);
        && answered && verdict == Some(correct)
        && (correct ==> report == Some(true) && !showTapToContinue)
        && (!correct && tapToContinue ==> report == None && showTapToContinue)
        && (!correct && !tapToContinue ==> report == Some(false) && !showTapToContinue)
    {
      if answered || Trim(input) == [] {
        return None;
      }
      var correct := Lower(Trim(input)) == Lower(word.english);
      verdict := Some(correct);
      answered := true;
      if correct {
        report := Some(true);
      } else if tapToContinue {
        showTapToContinue := true;
        report := None;
      } else {
        report := Some(false);
      }
    }

    /** `handleProceed` (a tap) and `handleKeyDown` (a key): report the
        verdict while the pause is shown; the pause stays shown. */
    method Proceed() returns (report: Option<bool>)
      requires Valid()
      ensures !showTapToContinue ==> report == None
      ensures showTapToContinue ==> report == Some(false)
    {
      if !showTapToContinue {
        return None;
      }
      report := Some(verdict.GetOr(false));
    }

    /** `handleSkip`: the "don't know" button reports a wrong answer through
        `onAnswer`; it never calls `onSkip`. */
    method SkipWord() returns (report: Option<bool>)
      requires Valid()
      modifies this
      ensures Valid()
      ensures word == old(word) && input == old(input) && showTapToContinue == old(showTapToContinue)
      ensures old(answered) || !hasSkip ==> report == None && answered == old(answered) && verdict == old(verdict)
      ensures !old(answered) && hasSkip ==> report == Some(false) && answered && verdict == Some(false)
    {
      if answered || !hasSkip {
        return None;
      }
      verdict := Some(false);
      answered := true;
      report := Some(false);
    }
  }
}
