/** `NumberLinesGame` (src/assets/js/framework/NumberLinesGame.js): place a
    target number on a line from `minValue` to `maxValue`. The range boxes,
    the four option boxes, the results panel and the running guess
    statistics are fields; each draw of `Math.random()` a handler takes is a
    parameter, and the click arrives as the fraction `p` of the line's width
    left of the pointer. */
module NumberLinesGame {

  import opened Wrappers
  import opened JsNumber
  import opened NumberLineRules
  import BaseGame
  import Storage

  /** The three stat boxes of the number-line page. */
  const Titles: seq<string> := ["Guesses", "Average", "Closest"]

  /** Beyond the three boxes every title falls back to `'Stat'`. */
  lemma TitlesOfNumberLines(index: int)
    ensures 0 <= index < 3 ==> BaseGame.StatTitle(Titles, index) == Titles[index]
    ensures !(0 <= index < 3) ==> BaseGame.StatTitle(Titles, index) == "Stat"
  {
  }

  /** The results panel after a click: where the player clicked and where
      the target is (fractions of the line), the error and the rating. */
  datatype Shown = Shown(percentage: real, correctPercentage: real, difference: real, rating: Rating)

  /** The start value of `closestGuessPercentage`, and the bound below which
      the Closest box shows a number rather than `N/A`. */
  const NoGuessYet := 100.0

  class Game {
    const shell: BaseGame.Game
    var minValue: real
    var maxValue: real
    var targetNumber: real
    var hasGuessed: bool
    var totalGuesses: nat
    var totalPercentageOff: real
    var closestGuessPercentage: real
    /** The option boxes. */
    var randomize: bool
    var decimals: bool
    var negatives: bool
    var largeNumbers: bool
    /** The results panel, when shown. */
    var results: Option<Shown>

    /** The range is never empty, the panel is up exactly while the problem
        has been guessed, and the closest error is at most every recorded
        error, hence at most their average. */
    predicate Valid()
      reads this
    {
      && minValue < maxValue
      && (hasGuessed <==> results.Some?)
      && 0.0 <= closestGuessPercentage <= NoGuessYet
      && totalPercentageOff >= 0.0
      && closestGuessPercentage * totalGuesses as real <= totalPercentageOff
    }

    /** The target was drawn for the current range and mode. */
    predicate Posed()
      reads this
    {
      if decimals then minValue <= targetNumber < maxValue
      else IsWhole(targetNumber) && minValue - 1.0 < targetNumber < maxValue + 1.0
    }

    constructor(store: Storage.StorageWithTtl?<BaseGame.Stats>, randomize: bool, decimals: bool, negatives: bool, largeNumbers: bool)
      ensures Valid()
      ensures shell.gameType == "numberlines" && shell.store == store && fresh(shell)
      ensures shell.stats == BaseGame.ZeroStats && !shell.isInitialized
      ensures minValue == 0.0 && maxValue == 100.0 && targetNumber == 0.0 && !hasGuessed
      ensures totalGuesses == 0 && totalPercentageOff == 0.0 && closestGuessPercentage == NoGuessYet
      ensures this.randomize == randomize && this.decimals == decimals
      ensures this.negatives == negatives && this.largeNumbers == largeNumbers
      ensures results == None
    {
      shell := new BaseGame.Game("numberlines", store);
      minValue := 0.0;
      maxValue := 100.0;
      targetNumber := 0.0;
      hasGuessed := false;
      totalGuesses := 0;
      totalPercentageOff := 0.0;
      closestGuessPercentage := NoGuessYet;
      this.randomize := randomize;
      this.decimals := decimals;
      this.negatives := negatives;
      this.largeNumbers := largeNumbers;
      results := None;
    }

    /** The player ticks or clears the randomize box. Nothing listens to
        it: the Next button reads it when it is clicked. */
    method SetRandomize(checked: bool)
      modifies this
      ensures randomize == checked
      ensures minValue == old(minValue) && maxValue == old(maxValue) && targetNumber == old(targetNumber)
      ensures hasGuessed == old(hasGuessed) && totalGuesses == old(totalGuesses)
      ensures totalPercentageOff == old(totalPercentageOff) && closestGuessPercentage == old(closestGuessPercentage)
      ensures decimals == old(decimals) && negatives == old(negatives) && largeNumbers == old(largeNumbers)
      ensures results == old(results)
    {
      randomize := checked;
    }

    /** The player ticks or clears the negatives box. Nothing listens to it
        either: the range draws and the large-numbers box read it when they
        run. */
    method SetNegatives(checked: bool)
      modifies this
      ensures negatives == checked
      ensures minValue == old(minValue) && maxValue == old(maxValue) && targetNumber == old(targetNumber)
      ensures hasGuessed == old(hasGuessed) && totalGuesses == old(totalGuesses)
      ensures totalPercentageOff == old(totalPercentageOff) && closestGuessPercentage == old(closestGuessPercentage)
      ensures randomize == old(randomize) && decimals == old(decimals) && largeNumbers == old(largeNumbers)
      ensures results == old(results)
    {
      negatives := checked;
    }

    /** `init`: the shell's guarded set-up, then the first problem. */
    method Init(r: real)
      requires Valid() && Draw(r)
      modifies this, shell
      ensures Valid() && Posed() && shell.isInitialized && shell.stats == old(shell.stats)
      ensures targetNumber == Target(decimals, minValue, maxValue, r)
      ensures minValue == old(minValue) && maxValue == old(maxValue) && hasGuessed == old(hasGuessed)
      ensures totalGuesses == old(totalGuesses) && totalPercentageOff == old(totalPercentageOff)
      ensures closestGuessPercentage == old(closestGuessPercentage) && results == old(results)
      ensures randomize == old(randomize) && decimals == old(decimals)
      ensures negatives == old(negatives) && largeNumbers == old(largeNumbers)
    {
      shell.Init();
      GenerateNewProblem(r);
    }

    /** `generateNewProblem`: a target with a fraction when the decimals
        box is ticked, a whole number otherwise. */
    method GenerateNewProblem(r: real)
      requires Valid() && Draw(r)
      modifies this
      ensures Valid() && Posed()
      ensures targetNumber == Target(decimals, minValue, maxValue, r)
      ensures minValue == old(minValue) && maxValue == old(maxValue) && hasGuessed == old(hasGuessed)
      ensures totalGuesses == old(totalGuesses) && totalPercentageOff == old(totalPercentageOff)
      ensures closestGuessPercentage == old(closestGuessPercentage) && results == old(results)
      ensures randomize == old(randomize) && decimals == old(decimals)
      ensures negatives == old(negatives) && largeNumbers == old(largeNumbers)
    {
      if decimals {
        targetNumber := DecimalTarget(minValue, maxValue, r);
      } else {
        targetNumber := IntegerTarget(minValue, maxValue, r);
      }
    }

    /** The change handler of the minimum box: a minimum at or above the
        maximum pushes the maximum to 10 above it; then a new target. */
    method ChangeMin(v: real, r: real)
      requires Valid() && Draw(r)
      modifies this
      ensures Valid() && Posed()
      ensures minValue == v
      ensures maxValue == if v >= old(maxValue) then v + 10.0 else old(maxValue)
      ensures targetNumber == Target(decimals, minValue, maxValue, r)
      ensures hasGuessed == old(hasGuessed) && results == old(results)
      ensures totalGuesses == old(totalGuesses) && totalPercentageOff == old(totalPercentageOff)
      ensures closestGuessPercentage == old(closestGuessPercentage)
      ensures randomize == old(randomize) && decimals == old(decimals)
      ensures negatives == old(negatives) && largeNumbers == old(largeNumbers)
    {
      minValue := v;
      if minValue >= maxValue {
        maxValue := minValue + 10.0;
      }
      GenerateNewProblem(r);
    }

    /** The change handler of the maximum box: a maximum at or below the
        minimum pulls the minimum to 10 below it; then a new target. */
    method ChangeMax(v: real, r: real)
      requires Valid() && Draw(r)
      modifies this
      ensures Valid() && Posed()
      ensures maxValue == v
      ensures minValue == if v <= old(minValue) then v - 10.0 else old(minValue)
      ensures targetNumber == Target(decimals, minValue, maxValue, r)
      ensures hasGuessed == old(hasGuessed) && results == old(results)
      ensures totalGuesses == old(totalGuesses) && totalPercentageOff == old(totalPercentageOff)
      ensures closestGuessPercentage == old(closestGuessPercentage)
      ensures randomize == old(randomize) && decimals == old(decimals)
      ensures negatives == old(negatives) && largeNumbers == old(largeNumbers)
    {
      maxValue := v;
      if maxValue <= minValue {
        minValue := maxValue - 10.0;
      }
      GenerateNewProblem(r);
    }

    /** Ticking or clearing the decimals box draws a new target. */
    method SetDecimals(checked: bool, r: real)
      requires Valid() && Draw(r)
      modifies this
      ensures Valid() && Posed() && decimals == checked
      ensures targetNumber == Target(checked, minValue, maxValue, r)
      ensures minValue == old(minValue) && maxValue == old(maxValue) && hasGuessed == old(hasGuessed)
      ensures totalGuesses == old(totalGuesses) && totalPercentageOff == old(totalPercentageOff)
      ensures closestGuessPercentage == old(closestGuessPercentage) && results == old(results)
      ensures randomize == old(randomize)
      ensures negatives == old(negatives) && largeNumbers == old(largeNumbers)
    {
      decimals := checked;
      GenerateNewProblem(r);
    }

    /** The change handler of the large-numbers box: ticked, a drawn large
        range; cleared, 0 to 100, or -100 to 0 when negatives are allowed.
        Then a new target. */
    method SetLargeNumbers(checked: bool, d: RangeDraws, r: real)
      requires Valid() && DrawsValid(d) && Draw(r)
      modifies this
      ensures Valid() && Posed() && largeNumbers == checked
      ensures checked ==> Spans(LargeDefaultRange(negatives, d), minValue, maxValue)
      ensures !checked ==> minValue == (if negatives then -100.0 else 0.0) && maxValue == minValue + 100.0
      ensures targetNumber == Target(decimals, minValue, maxValue, r)
      ensures hasGuessed == old(hasGuessed) && results == old(results)
      ensures totalGuesses == old(totalGuesses) && totalPercentageOff == old(totalPercentageOff)
      ensures closestGuessPercentage == old(closestGuessPercentage)
      ensures randomize == old(randomize) && decimals == old(decimals) && negatives == old(negatives)
    {
      largeNumbers := checked;
      if largeNumbers {
        SetLargeNumbersRange(d);
      } else {
        var defaultMin := if negatives then -100.0 else 0.0;
        minValue := defaultMin;
        maxValue := defaultMin + 100.0;
      }
      GenerateNewProblem(r);
    }

    /** `handleNumberLineClick`: ignored once the problem has been guessed;
        otherwise the panel shows the error and its rating, the error is
        added to the running statistics, and the problem counts as
        guessed. */
    method Click(p: real)
      requires Valid()
      modifies this
      ensures Valid() && hasGuessed
      ensures old(hasGuessed) ==>
        && results == old(results) && totalGuesses == old(totalGuesses)
        && totalPercentageOff == old(totalPercentageOff)
        && closestGuessPercentage == old(closestGuessPercentage)
      ensures !old(hasGuessed) ==>
        var e := PercentageError(p, targetNumber, minValue, maxValue);
        && results == Some(Shown(p, CorrectFraction(targetNumber, minValue, maxValue), e, Rate(e)))
        && totalGuesses == old(totalGuesses) + 1
        && totalPercentageOff == old(totalPercentageOff) + e
        && closestGuessPercentage == (if e < old(closestGuessPercentage) then e else old(closestGuessPercentage))
      ensures minValue == old(minValue) && maxValue == old(maxValue) && targetNumber == old(targetNumber)
      ensures randomize == old(randomize) && decimals == old(decimals)
      ensures negatives == old(negatives) && largeNumbers == old(largeNumbers)
    {
      if hasGuessed {
        return;
      }
      var correctPercentage := CorrectFraction(targetNumber, minValue, maxValue);
      var percentageDifference := PercentageError(p, targetNumber, minValue, maxValue);
      RecordGuess(percentageDifference);
      results := Some(Shown(p, correctPercentage, percentageDifference, Rate(percentageDifference)));
      hasGuessed := true;
    }

    /** The statistics part of a click: one more guess, its error added to
        the total, and the closest error lowered to it when it is smaller. */
    method RecordGuess(e: real)
      requires Valid() && e >= 0.0
      modifies this
      ensures totalGuesses == old(totalGuesses) + 1
      ensures totalPercentageOff == old(totalPercentageOff) + e
      ensures closestGuessPercentage == (if e < old(closestGuessPercentage) then e else old(closestGuessPercentage))
      ensures 0.0 <= closestGuessPercentage <= NoGuessYet && totalPercentageOff >= 0.0
      ensures closestGuessPercentage * totalGuesses as real <= totalPercentageOff
      ensures minValue == old(minValue) && maxValue == old(maxValue) && targetNumber == old(targetNumber)
      ensures hasGuessed == old(hasGuessed) && results == old(results)
      ensures randomize == old(randomize) && decimals == old(decimals)
      ensures negatives == old(negatives) && largeNumbers == old(largeNumbers)
    {
      var closest := if e < closestGuessPercentage then e else closestGuessPercentage;
      ClosestStaysBelow(closestGuessPercentage, closest, totalGuesses, totalPercentageOff, e);
      totalGuesses := totalGuesses + 1;
      totalPercentageOff := totalPercentageOff + e;
      closestGuessPercentage := closest;
    }

    /** `resetGame`: the markers and the panel go, and the next click
        counts again. */
    method ResetGame()
      requires Valid()
      modifies this
      ensures Valid() && !hasGuessed && results == None
      ensures minValue == old(minValue) && maxValue == old(maxValue) && targetNumber == old(targetNumber)
      ensures totalGuesses == old(totalGuesses) && totalPercentageOff == old(totalPercentageOff)
      ensures closestGuessPercentage == old(closestGuessPercentage)
      ensures randomize == old(randomize) && decimals == old(decimals)
      ensures negatives == old(negatives) && largeNumbers == old(largeNumbers)
    {
      results := None;
      hasGuessed := false;
    }

    /** The Next button: a drawn range when the randomize box is ticked,
        then a new target, then a fresh, unguessed problem. */
    method Next(d: RangeDraws, r: real)
      requires Valid() && DrawsValid(d) && Draw(r)
      modifies this
      ensures Valid() && Posed() && !hasGuessed && results == None
      ensures randomize ==> Spans(RandomRange(largeNumbers, negatives, d), minValue, maxValue)
      ensures !randomize ==> minValue == old(minValue) && maxValue == old(maxValue)
      ensures targetNumber == Target(decimals, minValue, maxValue, r)
      ensures totalGuesses == old(totalGuesses) && totalPercentageOff == old(totalPercentageOff)
      ensures closestGuessPercentage == old(closestGuessPercentage)
      ensures randomize == old(randomize) && decimals == old(decimals)
      ensures negatives == old(negatives) && largeNumbers == old(largeNumbers)
    {
      if randomize {
        RandomizeRange(d);
      }
      GenerateNewProblem(r);
      ResetGame();
    }

    /** `randomizeRange`: a round range on a drawn magnitude in large mode,
        small multiples of 10 or 100 otherwise; the sign flip at the end
        only applies outside large mode. */
    method RandomizeRange(d: RangeDraws)
      requires Valid() && DrawsValid(d)
      modifies this
      ensures Valid() && Spans(RandomRange(largeNumbers, negatives, d), minValue, maxValue)
      ensures targetNumber == old(targetNumber) && hasGuessed == old(hasGuessed) && results == old(results)
      ensures totalGuesses == old(totalGuesses) && totalPercentageOff == old(totalPercentageOff)
      ensures closestGuessPercentage == old(closestGuessPercentage)
      ensures randomize == old(randomize) && decimals == old(decimals)
      ensures negatives == old(negatives) && largeNumbers == old(largeNumbers)
    {
      var newMin: int;
      var rangeSize: int;
      if largeNumbers {
        var orderMagnitude := BandExponent(d.band);
        newMin := RoundNumber(orderMagnitude, d.sig, d.base);
        rangeSize := RoundNumber(orderMagnitude, d.rangeSig, d.rangeBase);
        var lowest, highest := Pow10(orderMagnitude) / 10, 9 * Pow10(orderMagnitude);
        if rangeSize < lowest {
          rangeSize := lowest;
        } else if rangeSize > highest {
          rangeSize := highest;
        }
      } else {
        var baseMin := RandomBelow(d.baseMin, 9) + 1;
        var baseMax := baseMin + RandomBelow(d.gap, 9) + 1;
        var multiplier := if d.multiplier < 0.7 then 10 else 100;
        if negatives && d.negate > 0.5 {
          newMin := -baseMin * multiplier;
        } else {
          newMin := baseMin * multiplier;
        }
        rangeSize := (baseMax - baseMin) * multiplier;
      }
      if negatives && d.flip > 0.5 && !largeNumbers {
        newMin := -newMin;
      }
      RandomRangeNonEmpty(largeNumbers, negatives, d);
      minValue := newMin as real;
      maxValue := (newMin + rangeSize) as real;
    }

    /** `setLargeNumbersRange`: a round minimum and size on a drawn
        magnitude, the minimum negated on a draw when negatives are allowed;
        no clamp. */
    method SetLargeNumbersRange(d: RangeDraws)
      requires Valid() && DrawsValid(d)
      modifies this
      ensures Valid() && Spans(LargeDefaultRange(negatives, d), minValue, maxValue)
      ensures targetNumber == old(targetNumber) && hasGuessed == old(hasGuessed) && results == old(results)
      ensures totalGuesses == old(totalGuesses) && totalPercentageOff == old(totalPercentageOff)
      ensures closestGuessPercentage == old(closestGuessPercentage)
      ensures randomize == old(randomize) && decimals == old(decimals)
      ensures negatives == old(negatives) && largeNumbers == old(largeNumbers)
    {
      var orderMagnitude := BandExponent(d.band);
      var newMin: int := RoundNumber(orderMagnitude, d.sig, d.base);
      var rangeSize := RoundNumber(orderMagnitude, d.rangeSig, d.rangeBase);
      if negatives && d.flip > 0.5 {
        newMin := -newMin;
      }
      minValue := newMin as real;
      maxValue := (newMin + rangeSize) as real;
    }

    /** The Average box: the mean error, or `None` (shown as 0 %) before
        the first guess. */
    function Average(): (a: Option<real>)
      reads this
      requires Valid()
      ensures a.Some? <==> totalGuesses > 0
      ensures a.Some? ==> closestGuessPercentage <= a.value
    {
      if totalGuesses > 0 then
        AverageAboveClosest(closestGuessPercentage, totalGuesses, totalPercentageOff);
        Some(totalPercentageOff / totalGuesses as real)
      else None
    }

    /** The Closest box: the smallest error, or `None` (shown as `N/A`)
        while it is still at its start value of 100. */
    function Closest(): (c: Option<real>)
      reads this
      requires Valid()
      ensures c.Some? <==> closestGuessPercentage < NoGuessYet
      ensures c.Some? ==> 0.0 <= c.value < NoGuessYet
    {
      if closestGuessPercentage < NoGuessYet then Some(closestGuessPercentage) else None
    }
  }

  /** The target `generateNewProblem` draws for a mode and a range. */
  function Target(decimals: bool, min: real, max: real, r: real): (t: real)
    requires min < max && Draw(r)
    ensures decimals ==> min <= t < max
    ensures !decimals ==> IsWhole(t) && min - 1.0 < t < max + 1.0
  {
    if decimals then DecimalTarget(min, max, r) else IntegerTarget(min, max, r)
  }

  /** The page's range is the span `s`. */
  predicate Spans(s: Span, min: real, max: real)
  {
    min == s.min as real && max == s.max as real
  }

  /** A new error keeps the closest error times the guess count below the
      total. */
  lemma ClosestStaysBelow(closest: real, next: real, n: nat, total: real, e: real)
    requires 0.0 <= next <= closest && next <= e && closest * n as real <= total
    ensures next * (n + 1) as real <= total + e
  {
    var k := n as real;
    assert next * k <= closest * k by {
      assert closest * k - next * k == (closest - next) * k;
    }
  }

  /** The mean of errors none of which is below `closest` is not below it. */
  lemma AverageAboveClosest(closest: real, n: nat, total: real)
    requires n > 0 && closest * n as real <= total
    ensures closest <= total / n as real
  {
    var k := n as real;
    assert total / k * k == total;
    assert (total / k - closest) * k == total - closest * k;
  }
}
