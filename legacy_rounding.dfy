/** The stand-alone rounding page (src/assets/js/rounding.js), the earlier
    version of the rounding game: its closure variables are the fields of
    `Page`, its counters are kept in memory only, and the player types the
    whole rounded number. The draws of `Math.random()` are parameters. */
module LegacyRounding {

  import opened Wrappers
  import opened JsNumber
  import opened RoundingRules
  import BaseGame

  datatype Feedback = Cleared | PleaseEnterValid | WellDone | Incorrect(correctValue: int)

  class Page {
    /** The difficulty boxes for 2, 3, 4, 5 and 6 digits. */
    var boxes: seq<bool>
    var currentNumber: int
    var correctAnswer: int
    ghost var digits: nat
    var questionsCount: nat
    var correctCount: nat
    var input: string
    var feedback: Feedback
    var picture: Option<Picture>
    /** The Check button is hidden and Next is shown. */
    var answered: bool

    predicate Valid()
      reads this
    {
      |boxes| == 5 && correctCount <= questionsCount
    }

    ghost predicate Posed()
      reads this
    {
      && 2 <= digits <= 6
      && Pow10(digits - 1) <= currentNumber < Pow10(digits)
      && correctAnswer == LegacyRoundedAnswer(currentNumber, digits)
    }

    /** The page loads: zero counters, then the first number. */
    constructor(boxes: seq<bool>, pick: real, draw: real)
      requires |boxes| == 5 && 0.0 <= pick < 1.0 && 0.0 <= draw < 1.0
      ensures Valid() && Posed()
      ensures var offered := EffectiveDigits(boxes);
        digits == offered[RandomBelow(pick, |offered|)]
      ensures currentNumber == NumberWithDigits(digits, draw)
      ensures this.boxes == if boxes == [false, false, false, false, false] then [true, true, true, true, true] else boxes
      ensures questionsCount == 0 && correctCount == 0
      ensures input == "" && feedback == Cleared && picture == None && !answered
    {
      this.boxes := boxes;
      currentNumber := 0;
      correctAnswer := 0;
      questionsCount := 0;
      correctCount := 0;
      input := "";
      feedback := Cleared;
      picture := None;
      answered := false;
      new;
      GenerateNewNumber(pick, draw);
    }

    /** The player ticks or clears the box for `i + 2` digits. No listener
        watches the boxes: `generateNewNumber` reads them afresh, so the
        change shows from the next number on. */
    method SetBox(i: nat, checked: bool)
      requires Valid() && i < 5
      modifies this
      ensures Valid() && boxes == old(boxes)[i := checked]
      ensures digits == old(digits) && currentNumber == old(currentNumber) && correctAnswer == old(correctAnswer)
      ensures questionsCount == old(questionsCount) && correctCount == old(correctCount)
      ensures input == old(input) && feedback == old(feedback) && picture == old(picture) && answered == old(answered)
    {
      boxes := boxes[i := checked];
    }

    /** The checked digit counts, in box order; when none is checked, all
        five, and every box is ticked. */
    method CollectDigits() returns (available: seq<nat>)
      requires Valid()
      modifies this
      ensures Valid() && available == EffectiveDigits(old(boxes))
      ensures boxes == if old(boxes) == [false, false, false, false, false] then [true, true, true, true, true] else old(boxes)
      ensures digits == old(digits) && currentNumber == old(currentNumber) && correctAnswer == old(correctAnswer)
      ensures questionsCount == old(questionsCount) && correctCount == old(correctCount)
      ensures input == old(input) && feedback == old(feedback) && picture == old(picture) && answered == old(answered)
    {
      available := CheckedDigits(boxes);
      if |available| == 0 {
        available := available + [2, 3, 4, 5, 6];
        boxes := [true, true, true, true, true];
      }
    }

    /** `generateNewNumber`: pick a digit count with `pick`, draw a number
        with that many digits with `draw`, and round it. */
    method GenerateNewNumber(pick: real, draw: real)
      requires Valid() && 0.0 <= pick < 1.0 && 0.0 <= draw < 1.0
      modifies this
      ensures Valid() && Posed()
      ensures var offered := EffectiveDigits(old(boxes));
        digits == offered[RandomBelow(pick, |offered|)]
      ensures currentNumber == NumberWithDigits(digits, draw)
      ensures boxes == if old(boxes) == [false, false, false, false, false] then [true, true, true, true, true] else old(boxes)
      ensures questionsCount == old(questionsCount) && correctCount == old(correctCount)
      ensures input == old(input) && feedback == old(feedback) && picture == old(picture) && answered == old(answered)
    {
      var available := CollectDigits();
      var numDigits := available[RandomBelow(pick, |available|)];
      PoseNumber(numDigits, draw);
    }

    /** The second half of `generateNewNumber`: a number with `numDigits`
        digits, drawn uniformly between the smallest and the largest. */
    method PoseNumber(numDigits: nat, draw: real)
      requires Valid() && 2 <= numDigits <= 6 && 0.0 <= draw < 1.0
      modifies this
      ensures Valid() && Posed() && digits == numDigits
      ensures currentNumber == NumberWithDigits(numDigits, draw)
      ensures boxes == old(boxes) && questionsCount == old(questionsCount) && correctCount == old(correctCount)
      ensures input == old(input) && feedback == old(feedback) && picture == old(picture) && answered == old(answered)
    {
      digits := numDigits;
      var minValue := Pow10(numDigits - 1);
      var maxValue := Pow10(numDigits) - 1;
      currentNumber := RandomBelow(draw, maxValue - minValue + 1) + minValue;
      correctAnswer := LegacyRoundedAnswer(currentNumber, numDigits);
    }

    /** The page after `checkAnswer` met `outcome`. */
    ghost predicate Responded(outcome: Outcome, oldPicture: Option<Picture>, oldQuestions: nat, oldCorrect: nat)
      reads this
    {
      match outcome
      case InvalidInput =>
        && feedback == PleaseEnterValid && picture == oldPicture
        && questionsCount == oldQuestions && correctCount == oldCorrect
      case Checked(userAnswer, isCorrect) =>
        && feedback == (if isCorrect then WellDone else Incorrect(correctAnswer))
        && questionsCount == oldQuestions + 1
        && correctCount == (if isCorrect then oldCorrect + 1 else oldCorrect)
        && (isCorrect ==> picture == None)
        && (!isCorrect && currentNumber > 0 && correctAnswer >= 0 ==>
              picture == Some(LegacyVisualize(currentNumber, userAnswer, correctAnswer)))
    }

    /** `checkAnswer`: `parseInt` of the box as typed; `NaN` only asks for a
        valid number, anything else counts as a question. */
    method CheckAnswer()
      requires Valid() && Posed()
      modifies this
      ensures Valid() && Posed()
      ensures boxes == old(boxes) && digits == old(digits) && currentNumber == old(currentNumber)
      ensures correctAnswer == old(correctAnswer) && input == old(input) && answered == old(answered)
      ensures Responded(CheckLegacy(input, correctAnswer), old(picture), old(questionsCount), old(correctCount))
    {
      var outcome := CheckLegacy(input, correctAnswer);
      LegacyRoundedIsNotNegative(currentNumber, digits);
      Respond(outcome);
    }

    method Respond(outcome: Outcome)
      requires Valid() && currentNumber > 0 && correctAnswer >= 0
      modifies this
      ensures Valid()
      ensures boxes == old(boxes) && digits == old(digits) && currentNumber == old(currentNumber)
      ensures correctAnswer == old(correctAnswer) && input == old(input) && answered == old(answered)
      ensures Responded(outcome, old(picture), old(questionsCount), old(correctCount))
    {
      if outcome.InvalidInput? {
        feedback := PleaseEnterValid;
        return;
      }
      questionsCount := questionsCount + 1;
      if outcome.isCorrect {
        feedback := WellDone;
        correctCount := correctCount + 1;
        picture := None;
      } else {
        feedback := Incorrect(correctAnswer);
        picture := Some(LegacyVisualize(currentNumber, outcome.userAnswer, correctAnswer));
      }
    }

    /** `updateStats`: the accuracy shown beside the counters. */
    function AccuracyShown(): (a: int)
      requires Valid()
      reads this
      ensures 0 <= a <= 100
      ensures questionsCount == 0 ==> a == 0
      ensures questionsCount > 0 && correctCount == questionsCount ==> a == 100
    {
      BaseGame.AccuracyBounds(correctCount, questionsCount);
      BaseGame.Accuracy(correctCount, questionsCount)
    }

    /** The Check button: check and swap to Next, also after an invalid entry. */
    method ClickCheck()
      requires Valid() && Posed()
      modifies this
      ensures Valid() && Posed() && answered
      ensures boxes == old(boxes) && digits == old(digits) && currentNumber == old(currentNumber)
      ensures correctAnswer == old(correctAnswer) && input == old(input)
      ensures Responded(CheckLegacy(input, correctAnswer), old(picture), old(questionsCount), old(correctCount))
    {
      answered := true;
      CheckAnswer();
    }

    /** The Next button: a new number, an empty box, no feedback. */
    method ClickNext(pick: real, draw: real)
      requires Valid() && 0.0 <= pick < 1.0 && 0.0 <= draw < 1.0
      modifies this
      ensures Valid() && Posed()
      ensures var offered := EffectiveDigits(old(boxes));
        digits == offered[RandomBelow(pick, |offered|)]
      ensures currentNumber == NumberWithDigits(digits, draw)
      ensures boxes == if old(boxes) == [false, false, false, false, false] then [true, true, true, true, true] else old(boxes)
      ensures questionsCount == old(questionsCount) && correctCount == old(correctCount)
      ensures input == "" && feedback == Cleared && picture == None && !answered
    {
      GenerateNewNumber(pick, draw);
      input := "";
      feedback := Cleared;
      picture := None;
      answered := false;
    }

    /** Enter acts as whichever of Check and Next is shown. */
    method PressEnter(pick: real, draw: real)
      requires Valid() && Posed() && 0.0 <= pick < 1.0 && 0.0 <= draw < 1.0
      modifies this
      ensures Valid() && Posed()
      ensures answered == !old(answered)
      ensures !old(answered) ==>
        && boxes == old(boxes) && digits == old(digits) && currentNumber == old(currentNumber)
        && correctAnswer == old(correctAnswer) && input == old(input)
        && Responded(CheckLegacy(input, correctAnswer), old(picture), old(questionsCount), old(correctCount))
      ensures old(answered) ==>
        && (var offered := EffectiveDigits(old(boxes));
            digits == offered[RandomBelow(pick, |offered|)])
        && currentNumber == NumberWithDigits(digits, draw)
        && boxes == (if old(boxes) == [false, false, false, false, false] then [true, true, true, true, true] else old(boxes))
        && questionsCount == old(questionsCount) && correctCount == old(correctCount)
        && input == "" && feedback == Cleared && picture == None
    {
      if !answered {
        ClickCheck();
      } else {
        ClickNext(pick, draw);
      }
    }
  }

  lemma LegacyRoundedIsNotNegative(n: int, d: nat)
    requires 2 <= d <= 6 && Pow10(d - 1) <= n
    ensures LegacyRoundedAnswer(n, d) >= 0
  {
    Pow10Monotone(d - LegacySignificantDigits(d), d - 1);
  }

  /** The earlier page wants the whole rounded number: for 3456, "3500" is
      right and "35" is wrong, where RoundingGame takes "35". */
  lemma WholeNumberExpected()
    ensures CheckLegacy("3500", LegacyRoundedAnswer(3456, 4)) == Checked(3500, true)
    ensures CheckLegacy("35", LegacyRoundedAnswer(3456, 4)) == Checked(35, false)
  {
    RoundedExample();
    LegacyAgreesFromThreeDigits(3456, 4);
    assert ShowNat(35) == "35" && ShowNat(3500) == "3500" by {
      assert ShowNat(3) == "3" && ShowNat(350) == "350";
    }
    ParseIntShowNat(35);
    ParseIntShowNat(3500);
  }

  /** Typing the rounded number's own digits is always marked correct. */
  lemma AnswerIsEnterable(n: int, d: nat)
    requires 2 <= d <= 6 && Pow10(d - 1) <= n
    ensures CheckLegacy(ShowNat(LegacyRoundedAnswer(n, d)), LegacyRoundedAnswer(n, d))
      == Checked(LegacyRoundedAnswer(n, d), true)
  {
    LegacyRoundedIsNotNegative(n, d);
    ParseIntShowNat(LegacyRoundedAnswer(n, d));
  }
}
