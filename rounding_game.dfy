/** `RoundingGame` (src/assets/js/framework/RoundingGame.js): the rounding
    quiz built on the BaseGame shell. The page's input box, feedback line,
    difficulty boxes and the visibility of the Check/Next buttons are fields;
    the two draws of `Math.random()` a new problem takes are parameters. */
module RoundingGame {

  import opened Wrappers
  import opened JsNumber
  import opened RoundingRules
  import BaseGame
  import Storage

  /** The three stat boxes of the rounding page. */
  const Titles: seq<string> := ["Questions", "Correct", "Accuracy"]

  /** Beyond the three boxes every title falls back to `'Stat'`. */
  lemma TitlesOfRounding(index: int)
    ensures 0 <= index < 3 ==> BaseGame.StatTitle(Titles, index) == Titles[index]
    ensures !(0 <= index < 3) ==> BaseGame.StatTitle(Titles, index) == "Stat"
  {
  }

  /** The message on the feedback line. */
  datatype Feedback = Cleared | PleaseEnterValid | WellDone | Incorrect(correctValue: int)

  class Game {
    const shell: BaseGame.Game
    /** The difficulty boxes for 2, 3, 4, 5 and 6 digits. */
    var boxes: seq<bool>
    var currentNumber: int
    var correctAnswer: int
    var expectedSignificantDigits: nat
    var trailingZerosCount: nat
    /** The digit count drawn for the current problem. */
    ghost var digits: nat
    /** The text of the answer box. */
    var input: string
    var feedback: Feedback
    /** The feedback line, when shown. */
    var picture: Option<Picture>
    /** The Check button is hidden and Next is shown. */
    var answered: bool

    predicate Valid()
      reads this
    {
      |boxes| == 5
    }

    /** A problem is on screen: a number with `digits` digits, its rounded
        answer and the digits the player is expected to type. */
    ghost predicate Posed()
      reads this
    {
      && 2 <= digits <= 6
      && Pow10(digits - 1) <= currentNumber < Pow10(digits)
      && correctAnswer == RoundedAnswer(currentNumber, digits)
      && expectedSignificantDigits == SignificantDigits(digits)
      && trailingZerosCount == TrailingZeros(digits)
    }

    constructor(store: Storage.StorageWithTtl?<BaseGame.Stats>, boxes: seq<bool>)
      requires |boxes| == 5
      ensures Valid() && this.boxes == boxes
      ensures shell.gameType == "rounding" && shell.store == store && fresh(shell)
      ensures shell.stats == BaseGame.ZeroStats && !shell.isInitialized
      ensures currentNumber == 0 && correctAnswer == 0
      ensures expectedSignificantDigits == 0 && trailingZerosCount == 0
      ensures input == "" && feedback == Cleared && picture == None && !answered
    {
      shell := new BaseGame.Game("rounding", store);
      this.boxes := boxes;
      currentNumber := 0;
      correctAnswer := 0;
      expectedSignificantDigits := 0;
      trailingZerosCount := 0;
      input := "";
      feedback := Cleared;
      picture := None;
      answered := false;
    }

    /** The player ticks or clears the box for `i + 2` digits. The page has
        no listener on the boxes: `generateNewProblem` reads them afresh,
        so the change shows from the next problem on. */
    method SetBox(i: nat, checked: bool)
      requires Valid() && i < 5
      modifies this
      ensures Valid() && boxes == old(boxes)[i := checked]
      ensures digits == old(digits) && currentNumber == old(currentNumber) && correctAnswer == old(correctAnswer)
      ensures expectedSignificantDigits == old(expectedSignificantDigits) && trailingZerosCount == old(trailingZerosCount)
      ensures input == old(input) && feedback == old(feedback) && picture == old(picture) && answered == old(answered)
    {
      boxes := boxes[i := checked];
    }

    /** The first half of `generateNewProblem`: the checked digit counts,
        in box order; when none is checked, all five, and every box is
        ticked. */
    method CollectDigits() returns (available: seq<nat>)
      requires Valid()
      modifies this
      ensures Valid() && available == EffectiveDigits(old(boxes))
      ensures boxes == if old(boxes) == [false, false, false, false, false] then [true, true, true, true, true] else old(boxes)
      ensures digits == old(digits) && currentNumber == old(currentNumber) && correctAnswer == old(correctAnswer)
      ensures expectedSignificantDigits == old(expectedSignificantDigits) && trailingZerosCount == old(trailingZerosCount)
      ensures input == old(input) && feedback == old(feedback) && picture == old(picture) && answered == old(answered)
    {
      available := CheckedDigits(boxes);
      if |available| == 0 {
        available := available + [2, 3, 4, 5, 6];
        boxes := [true, true, true, true, true];
      }
    }

    /** `generateNewProblem`: pick one of the offered digit counts with the
        draw `pick`, draw a number with that many digits with `draw`, and set
        its rounded answer, significant digits and trailing zeros. */
    method GenerateNewProblem(pick: real, draw: real)
      requires Valid() && 0.0 <= pick < 1.0 && 0.0 <= draw < 1.0
      modifies this
      ensures Valid() && Posed()
      ensures var offered := EffectiveDigits(old(boxes));
        digits == offered[RandomBelow(pick, |offered|)]
      ensures currentNumber == NumberWithDigits(digits, draw)
      ensures boxes == if old(boxes) == [false, false, false, false, false] then [true, true, true, true, true] else old(boxes)
      ensures input == old(input) && feedback == old(feedback) && picture == old(picture) && answered == old(answered)
    {
      var available := CollectDigits();
      var numDigits := available[RandomBelow(pick, |available|)];
      PoseNumber(numDigits, draw);
    }

    /** The second half of `generateNewProblem`: a number with `numDigits`
        digits, drawn uniformly between the smallest and the largest. */
    method PoseNumber(numDigits: nat, draw: real)
      requires Valid() && 2 <= numDigits <= 6 && 0.0 <= draw < 1.0
      modifies this
      ensures Valid() && Posed() && digits == numDigits
      ensures currentNumber == NumberWithDigits(numDigits, draw)
      ensures boxes == old(boxes)
      ensures input == old(input) && feedback == old(feedback) && picture == old(picture) && answered == old(answered)
    {
      digits := numDigits;
      var minValue := Pow10(numDigits - 1);
      var maxValue := Pow10(numDigits) - 1;
      currentNumber := RandomBelow(draw, maxValue - minValue + 1) + minValue;
      if numDigits <= 2 {
        expectedSignificantDigits := numDigits;
        trailingZerosCount := 0;
      } else {
        expectedSignificantDigits := if numDigits <= 3 then 1 else 2;
        trailingZerosCount := numDigits - expectedSignificantDigits;
      }
      correctAnswer := RoundedAnswer(currentNumber, numDigits);
    }

    /** `updateTrailingZeros`, run on every keystroke: the box never holds
        more characters than the expected significant digits. */
    method UpdateTrailingZeros()
      modifies this
      ensures input == Truncate(old(input), expectedSignificantDigits)
      ensures |input| <= expectedSignificantDigits
      ensures boxes == old(boxes) && digits == old(digits) && currentNumber == old(currentNumber)
      ensures correctAnswer == old(correctAnswer) && expectedSignificantDigits == old(expectedSignificantDigits)
      ensures trailingZerosCount == old(trailingZerosCount)
      ensures feedback == old(feedback) && picture == old(picture) && answered == old(answered)
    {
      if |input| > expectedSignificantDigits {
        input := input[..expectedSignificantDigits];
      }
    }

    /** The player types: the box takes `text`, then is cut. */
    method Type(text: string)
      modifies this
      ensures input == Truncate(text, expectedSignificantDigits)
      ensures boxes == old(boxes) && digits == old(digits) && currentNumber == old(currentNumber)
      ensures correctAnswer == old(correctAnswer) && expectedSignificantDigits == old(expectedSignificantDigits)
      ensures trailingZerosCount == old(trailingZerosCount)
      ensures feedback == old(feedback) && picture == old(picture) && answered == old(answered)
    {
      input := text;
      UpdateTrailingZeros();
    }

    /** `checkAnswer`: an empty or non-numeric entry only asks for a valid
        number and is not counted; otherwise the attempt is recorded in the
        shell's counters (and saved), and a wrong answer shows the
        feedback line. */
    method CheckAnswer(now: int)
      requires Valid() && Posed()
      modifies this, shell, shell.store
      ensures Valid() && Posed()
      ensures boxes == old(boxes) && digits == old(digits) && currentNumber == old(currentNumber)
      ensures correctAnswer == old(correctAnswer) && input == old(input) && answered == old(answered)
      ensures expectedSignificantDigits == old(expectedSignificantDigits) && trailingZerosCount == old(trailingZerosCount)
      ensures Responded(CheckRounding(input, trailingZerosCount, correctAnswer), old(picture), old(shell.stats), old(BackendOf(shell.store)), now)
    {
      var outcome := CheckRounding(input, trailingZerosCount, correctAnswer);
      RoundedIsNotNegative(currentNumber, digits);
      Respond(outcome, now);
    }

    /** The page after `checkAnswer` met `outcome`. */
    ghost predicate Responded(outcome: Outcome, oldPicture: Option<Picture>, oldStats: BaseGame.Stats,
                              oldBackend: map<string, Storage.Record<BaseGame.Stats>>, now: int)
      reads this, shell, shell.store
    {
      match outcome
      case InvalidInput =>
        && feedback == PleaseEnterValid && picture == oldPicture
        && shell.stats == oldStats
        && (shell.store != null ==> shell.store.backend == oldBackend)
      case Checked(userAnswer, isCorrect) =>
        && feedback == (if isCorrect then WellDone else Incorrect(correctAnswer))
        && (isCorrect ==> picture == None)
        && (!isCorrect && currentNumber > 0 && correctAnswer >= 0 ==>
              picture == Some(Visualize(currentNumber, userAnswer, correctAnswer)))
        && shell.stats == BaseGame.Recorded(oldStats, isCorrect)
        && (shell.store != null ==>
              shell.store.backend == Storage.Put(oldBackend, BaseGame.StatsKey(shell.gameType), shell.stats, None, now))
    }

    method Respond(outcome: Outcome, now: int)
      requires currentNumber > 0 && correctAnswer >= 0
      modifies this, shell, shell.store
      ensures boxes == old(boxes) && digits == old(digits) && currentNumber == old(currentNumber)
      ensures correctAnswer == old(correctAnswer) && input == old(input) && answered == old(answered)
      ensures expectedSignificantDigits == old(expectedSignificantDigits) && trailingZerosCount == old(trailingZerosCount)
      ensures Responded(outcome, old(picture), old(shell.stats), old(BackendOf(shell.store)), now)
    {
      if outcome.InvalidInput? {
        feedback := PleaseEnterValid;
        return;
      }
      var isCorrect := outcome.isCorrect;
      if isCorrect {
        feedback := WellDone;
        picture := None;
      } else {
        feedback := Incorrect(correctAnswer);
        picture := Some(Visualize(currentNumber, outcome.userAnswer, correctAnswer));
      }
      shell.UpdateStats(isCorrect, now);
    }

    /** The Check button: check and swap to Next — also after an invalid
        entry, which therefore cannot be corrected for this problem. The
        check does not look at the buttons, so the swap is made first. */
    method ClickCheck(now: int)
      requires Valid() && Posed()
      modifies this, shell, shell.store
      ensures Valid() && Posed() && answered
      ensures boxes == old(boxes) && digits == old(digits) && currentNumber == old(currentNumber)
      ensures correctAnswer == old(correctAnswer) && input == old(input)
      ensures expectedSignificantDigits == old(expectedSignificantDigits) && trailingZerosCount == old(trailingZerosCount)
      ensures Responded(CheckRounding(input, trailingZerosCount, correctAnswer), old(picture), old(shell.stats), old(BackendOf(shell.store)), now)
    {
      answered := true;
      CheckAnswer(now);
    }

    /** The Next button: a new problem, an empty box, no feedback, Check
        shown again. */
    method ClickNext(pick: real, draw: real)
      requires Valid() && 0.0 <= pick < 1.0 && 0.0 <= draw < 1.0
      modifies this
      ensures Valid() && Posed()
      ensures var offered := EffectiveDigits(old(boxes));
        digits == offered[RandomBelow(pick, |offered|)]
      ensures currentNumber == NumberWithDigits(digits, draw)
      ensures boxes == if old(boxes) == [false, false, false, false, false] then [true, true, true, true, true] else old(boxes)
      ensures input == "" && feedback == Cleared && picture == None && !answered
    {
      GenerateNewProblem(pick, draw);
      input := "";
      feedback := Cleared;
      picture := None;
      answered := false;
    }

    /** Enter in the answer box acts as whichever of Check and Next is shown. */
    method PressEnter(now: int, pick: real, draw: real)
      requires Valid() && Posed() && 0.0 <= pick < 1.0 && 0.0 <= draw < 1.0
      modifies this, shell, shell.store
      ensures Valid() && Posed()
      ensures answered == !old(answered)
      ensures !old(answered) ==>
        && boxes == old(boxes) && digits == old(digits) && currentNumber == old(currentNumber)
        && correctAnswer == old(correctAnswer) && input == old(input)
        && expectedSignificantDigits == old(expectedSignificantDigits) && trailingZerosCount == old(trailingZerosCount)
        && Responded(CheckRounding(input, trailingZerosCount, correctAnswer), old(picture), old(shell.stats), old(BackendOf(shell.store)), now)
      ensures old(answered) ==>
        && (var offered := EffectiveDigits(old(boxes));
            digits == offered[RandomBelow(pick, |offered|)])
        && currentNumber == NumberWithDigits(digits, draw)
        && boxes == (if old(boxes) == [false, false, false, false, false] then [true, true, true, true, true] else old(boxes))
        && input == "" && feedback == Cleared && picture == None
        && shell.stats == old(shell.stats) && BackendOf(shell.store) == old(BackendOf(shell.store))
    {
      if !answered {
        ClickCheck(now);
      } else {
        ClickNext(pick, draw);
      }
    }

    /** `init`: the shell's `init` (a no-op after the first call), then a new
        problem — which the rounding page draws on every call, since its own
        `init` has no guard. */
    method Init(pick: real, draw: real)
      requires Valid() && 0.0 <= pick < 1.0 && 0.0 <= draw < 1.0
      modifies this, shell
      ensures Valid() && Posed() && shell.isInitialized
      ensures shell.stats == old(shell.stats)
      ensures var offered := EffectiveDigits(old(boxes));
        digits == offered[RandomBelow(pick, |offered|)]
      ensures currentNumber == NumberWithDigits(digits, draw)
      ensures boxes == if old(boxes) == [false, false, false, false, false] then [true, true, true, true, true] else old(boxes)
      ensures input == old(input) && feedback == old(feedback) && picture == old(picture) && answered == old(answered)
    {
      shell.Init();
      GenerateNewProblem(pick, draw);
    }
  }

  /** The saved entries of a cache that may be absent. */
  function BackendOf(store: Storage.StorageWithTtl?<BaseGame.Stats>): map<string, Storage.Record<BaseGame.Stats>>
    reads store
  {
    if store == null then map[] else store.backend
  }

  /** The rounded answer to a drawn number is never negative, so the
      feedback line can always be drawn. */
  lemma RoundedIsNotNegative(n: int, d: nat)
    requires 2 <= d <= 6 && Pow10(d - 1) <= n
    ensures RoundedAnswer(n, d) >= 0
  {
    if d >= 3 {
      Pow10Monotone(TrailingZeros(d), d - 1);
    }
  }
}
