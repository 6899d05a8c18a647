/** The dashboard's daily question card (`components/DailyQuestion.tsx`): ten
    fixed questions visited in turn, a local answer that can be marked as
    submitted, and a strip of five dots. The 300 ms animation delay is an
    explicit second step. */
module DailyQuestion {
  import opened Text
  import opened Cyclic

  const Questions: seq<string> := [
    "What's one thing about me that always makes you smile?",
    "If we could go anywhere in the world together, where would you want to go?",
    "What's your favorite memory of us?",
    "What song reminds you of our relationship?",
    "What do you love most about our relationship?",
    "If you could relive any day we spent together, which one would it be?",
    "What's something new you'd like us to try together?",
    "What made you fall in love with me?",
    "What's the sweetest thing I've ever done for you?",
    "What are you most looking forward to in our future together?"
  ]

  const DotCount: nat := 5

  /** The dot highlighted for question `current`. */
  function HighlightedDot(current: nat): (d: nat)
    ensures d < DotCount
  {
    current % DotCount
  }

  /** Whether the dot at `idx` is drawn as the active one. */
  predicate IsHighlighted(idx: int, current: nat) {
    idx == current % DotCount
  }

  /** Exactly one of the five dots is highlighted. */
  lemma ExactlyOneDot(current: nat)
    ensures (set idx | 0 <= idx < DotCount && IsHighlighted(idx, current)) == {HighlightedDot(current)}
  {
    var s := set idx | 0 <= idx < DotCount && IsHighlighted(idx, current);
    assert IsHighlighted(HighlightedDot(current), current);
    assert HighlightedDot(current) in s;
  }

  /** Questions five apart share a dot. */
  lemma DotsRepeatEveryFive(current: nat)
    ensures HighlightedDot(current + 5) == HighlightedDot(current)
  {
  }

  class DailyQuestion {
    /** Index of the question shown. */
    var currentQuestion: nat
    var answer: string
    var submitted: bool
    var isAnimating: bool

    predicate Valid()
      reads this
    {
      currentQuestion < |Questions|
    }

    constructor ()
      ensures currentQuestion == 0 && answer == "" && !submitted && !isAnimating
      ensures Valid()
    {
      currentQuestion := 0;
      answer := "";
      submitted := false;
      isAnimating := false;
    }

    /** `getNewQuestion`, first step: the card starts animating. */
    method GetNewQuestion()
      modifies this`isAnimating
      ensures isAnimating
    {
      isAnimating := true;
    }

    /** `getNewQuestion`, the timeout: the next question in turn, with a
        fresh answer, and the animation over. */
    method OnNewQuestionTimeout()
      requires Valid()
      modifies this
      ensures Valid()
      ensures currentQuestion == Next(old(currentQuestion), |Questions|)
      ensures answer == "" && !submitted && !isAnimating
    {
      currentQuestion := (currentQuestion + 1) % |Questions|;
      answer := "";
      submitted := false;
      isAnimating := false;
    }

    /** `handleSubmit`: marks the answer submitted unless it is blank. */
    method HandleSubmit()
      modifies this`submitted
      ensures !IsBlank(answer) ==> submitted
      ensures IsBlank(answer) ==> submitted == old(submitted)
    {
      if Trim(answer) != [] {
        submitted := true;
      }
    }
  }

  /** Ten new questions in a row come back to the question shown first. */
  lemma TenQuestionsComeBack(current: nat)
    requires current < |Questions|
    ensures Steps(current, |Questions|, 10) == current
  {
    CycleReturns(current, |Questions|);
  }
}
