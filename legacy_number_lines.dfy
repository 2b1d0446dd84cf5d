/** The earlier number-line page (src/assets/js/numberlines.js): the same
    target and rating rules as `NumberLinesGame`, no statistics, and a
    `randomizeRange` of its own. The page's state lives in closure
    variables, modelled as the fields of one `Page`. */
module LegacyNumberLines {

  import opened Wrappers
  import opened JsNumber
  import opened NumberLineRules

  /** The results panel after a click: the error and its rating. */
  datatype Shown = Shown(percentage: real, correctPercentage: real, difference: real, rating: Rating)

  class Page {
    var minValue: real
    var maxValue: real
    var targetNumber: real
    var hasGuessed: bool
    var randomize: bool
    var decimals: bool
    /** The results panel, when shown. */
    var results: Option<Shown>

    predicate Valid()
      reads this
    {
      && minValue < maxValue
      && (hasGuessed <==> results.Some?)
    }

    /** The target was drawn for the current range and mode. */
    predicate Posed()
      reads this
    {
      if decimals then minValue <= targetNumber < maxValue
      else IsWhole(targetNumber) && minValue - 1.0 < targetNumber < maxValue + 1.0
    }

    /** Page load: the range comes from the two boxes' whole-number values,
        then the first target is drawn with `r`. */
    constructor(min: int, max: int, randomize: bool, decimals: bool, r: real)
      requires min < max && Draw(r)
      ensures Valid() && Posed()
      ensures minValue == min as real && maxValue == max as real && !hasGuessed
      ensures this.randomize == randomize && this.decimals == decimals
      ensures targetNumber == if decimals then DecimalTarget(minValue, maxValue, r) else IntegerTarget(minValue, maxValue, r)
      ensures !decimals ==> minValue <= targetNumber <= maxValue
    {
      minValue := min as real;
      maxValue := max as real;
      targetNumber := 0.0;
      hasGuessed := false;
      this.randomize := randomize;
      this.decimals := decimals;
      results := None;
      new;
      GenerateNewTarget(r);
      if !decimals {
        IntegerTargetInRange(minValue, maxValue, r);
      }
    }

    /** The player ticks or clears the randomize box; the Next button reads
        it when it is clicked. */
    method SetRandomize(checked: bool)
      modifies this
      ensures randomize == checked
      ensures minValue == old(minValue) && maxValue == old(maxValue) && targetNumber == old(targetNumber)
      ensures hasGuessed == old(hasGuessed) && decimals == old(decimals) && results == old(results)
    {
      randomize := checked;
    }

    /** `generateNewTarget`. */
    method GenerateNewTarget(r: real)
      requires Valid() && Draw(r)
      modifies this
      ensures Valid() && Posed()
      ensures targetNumber == if decimals then DecimalTarget(minValue, maxValue, r) else IntegerTarget(minValue, maxValue, r)
      ensures minValue == old(minValue) && maxValue == old(maxValue)
      ensures hasGuessed == old(hasGuessed) && results == old(results)
      ensures randomize == old(randomize) && decimals == old(decimals)
    {
      if decimals {
        targetNumber := DecimalTarget(minValue, maxValue, r);
      } else {
        targetNumber := IntegerTarget(minValue, maxValue, r);
      }
    }

    /** The change handler of the minimum box. */
    method ChangeMin(v: real, r: real)
      requires Valid() && Draw(r)
      modifies this
      ensures Valid() && Posed() && minValue == v
      ensures maxValue == if v >= old(maxValue) then v + 10.0 else old(maxValue)
      ensures targetNumber == if decimals then DecimalTarget(minValue, maxValue, r) else IntegerTarget(minValue, maxValue, r)
      ensures hasGuessed == old(hasGuessed) && results == old(results)
      ensures randomize == old(randomize) && decimals == old(decimals)
    {
      minValue := v;
      if minValue >= maxValue {
        maxValue := minValue + 10.0;
      }
      GenerateNewTarget(r);
    }

    /** The change handler of the maximum box. */
    method ChangeMax(v: real, r: real)
      requires Valid() && Draw(r)
      modifies this
      ensures Valid() && Posed() && maxValue == v
      ensures minValue == if v <= old(minValue) then v - 10.0 else old(minValue)
      ensures targetNumber == if decimals then DecimalTarget(minValue, maxValue, r) else IntegerTarget(minValue, maxValue, r)
      ensures hasGuessed == old(hasGuessed) && results == old(results)
      ensures randomize == old(randomize) && decimals == old(decimals)
    {
      maxValue := v;
      if maxValue <= minValue {
        minValue := maxValue - 10.0;
      }
      GenerateNewTarget(r);
    }

    /** Ticking or clearing the decimals box draws a new target. */
    method SetDecimals(checked: bool, r: real)
      requires Valid() && Draw(r)
      modifies this
      ensures Valid() && Posed() && decimals == checked
      ensures targetNumber == if checked then DecimalTarget(minValue, maxValue, r) else IntegerTarget(minValue, maxValue, r)
      ensures minValue == old(minValue) && maxValue == old(maxValue)
      ensures hasGuessed == old(hasGuessed) && results == old(results)
      ensures randomize == old(randomize)
    {
      decimals := checked;
      GenerateNewTarget(r);
    }

    /** The click handler: ignored once guessed; otherwise the error and its
        rating are shown and the problem counts as guessed. */
    method Click(p: real)
      requires Valid()
      modifies this
      ensures Valid() && hasGuessed
      ensures old(hasGuessed) ==> results == old(results)
      ensures !old(hasGuessed) ==>
        var e := PercentageError(p, targetNumber, minValue, maxValue);
        results == Some(Shown(p, CorrectFraction(targetNumber, minValue, maxValue), e, Rate(e)))
      ensures minValue == old(minValue) && maxValue == old(maxValue) && targetNumber == old(targetNumber)
      ensures randomize == old(randomize) && decimals == old(decimals)
    {
      if hasGuessed {
        return;
      }
      var correctPercentage := CorrectFraction(targetNumber, minValue, maxValue);
      var percentageDifference := PercentageError(p, targetNumber, minValue, maxValue);
      results := Some(Shown(p, correctPercentage, percentageDifference, Rate(percentageDifference)));
      hasGuessed := true;
    }

    /** `resetGame`. */
    method ResetGame()
      requires Valid()
      modifies this
      ensures Valid() && !hasGuessed && results == None
      ensures minValue == old(minValue) && maxValue == old(maxValue) && targetNumber == old(targetNumber)
      ensures randomize == old(randomize) && decimals == old(decimals)
    {
      results := None;
      hasGuessed := false;
    }

    /** `randomizeRange`: a whole-number minimum in [-100, 99] and a size
        in [20, 199]. */
    method RandomizeRange(rMin: real, rSize: real)
      requires Valid() && Draw(rMin) && Draw(rSize)
      modifies this
      ensures Valid()
      ensures var s := LegacyRandomRange(rMin, rSize);
        minValue == s.min as real && maxValue == s.max as real
      ensures targetNumber == old(targetNumber) && hasGuessed == old(hasGuessed) && results == old(results)
      ensures randomize == old(randomize) && decimals == old(decimals)
    {
      var newMin := RandomBelow(rMin, 200) - 100;
      var rangeSize := RandomBelow(rSize, 180) + 20;
      var newMax := newMin + rangeSize;
      minValue := newMin as real;
      maxValue := newMax as real;
    }

    /** The Next button: a drawn range when the randomize box is ticked,
        a new target, and a fresh, unguessed problem. */
    method Next(rMin: real, rSize: real, r: real)
      requires Valid() && Draw(rMin) && Draw(rSize) && Draw(r)
      modifies this
      ensures Valid() && Posed() && !hasGuessed && results == None
      ensures randomize ==> var s := LegacyRandomRange(rMin, rSize);
        minValue == s.min as real && maxValue == s.max as real
      ensures !randomize ==> minValue == old(minValue) && maxValue == old(maxValue)
      ensures targetNumber == if decimals then DecimalTarget(minValue, maxValue, r) else IntegerTarget(minValue, maxValue, r)
      ensures randomize && !decimals ==> minValue <= targetNumber <= maxValue
      ensures randomize == old(randomize) && decimals == old(decimals)
    {
      if randomize {
        RandomizeRange(rMin, rSize);
      }
      GenerateNewTarget(r);
      ResetGame();
      if randomize && !decimals {
        IntegerTargetInRange(minValue, maxValue, r);
      }
    }
  }
}
