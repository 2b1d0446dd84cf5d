/** The arithmetic of the number-line game, shared by `NumberLinesGame`
    (src/assets/js/framework/NumberLinesGame.js) and its earlier version
    (src/assets/js/numberlines.js): where the target falls, how far a click
    is from it, the star rating, and the round-number ranges the Next button
    draws. Draws of `Math.random()` are reals in [0, 1). */
module NumberLineRules {

  import opened JsNumber

  // ---------------------------------------------------------------------
  // The target

  predicate IsWhole(x: real)
  {
    x == x.Floor as real
  }

  /** `Math.floor(min + r * (range + 1))`: a whole-number target. */
  function IntegerTarget(min: real, max: real, r: real): (t: real)
    requires min <= max && 0.0 <= r < 1.0
    ensures IsWhole(t) && t < max + 1.0 && t > min - 1.0
  {
    var k := (min + Scaled(r, max - min + 1.0)).Floor;
    assert (k as real).Floor == k;
    k as real
  }

  /** `min + r * range`: a target with a fraction. */
  function DecimalTarget(min: real, max: real, r: real): (t: real)
    requires min < max && 0.0 <= r < 1.0
    ensures min <= t < max
  {
    min + Scaled(r, max - min)
  }

  /** With whole-number bounds the whole-number target lies in [min, max]. */
  lemma IntegerTargetInRange(min: real, max: real, r: real)
    requires min <= max && 0.0 <= r < 1.0 && IsWhole(min) && IsWhole(max)
    ensures min <= IntegerTarget(min, max, r) <= max
  {
    var x := min + Scaled(r, max - min + 1.0);
    var k := x.Floor;
    assert min.Floor <= k;
    assert k < max.Floor + 1;
  }

  /** With whole-number bounds both ends of `[min, max]` are drawn: a draw
      of 0 gives `min`, and the draw `(max - min) / (max - min + 1)`, below
      1, gives `max`. */
  lemma IntegerTargetEnds(min: real, max: real)
    requires min <= max && IsWhole(min) && IsWhole(max)
    ensures IntegerTarget(min, max, 0.0) == min
    ensures var r := (max - min) / (max - min + 1.0);
      0.0 <= r < 1.0 && IntegerTarget(min, max, r) == max
  {
    var w := max - min + 1.0;
    var r := (max - min) / w;
    assert r * w == max - min;
    assert r < 1.0;
    assert min + Scaled(r, w) == max;
  }

  /** Bounds with a fraction (the range boxes accept any number) let the
      whole-number target fall below `min`: from 0.5 to 10 a draw of 0 gives 0. */
  lemma FractionalMinEscapes()
    ensures IntegerTarget(0.5, 10.0, 0.0) == 0.0 < 0.5
  {
  }

  // ---------------------------------------------------------------------
  // Scoring a click

  /** `correctPercentage`: where the target sits along the line, as a
      fraction of its length. */
  function CorrectFraction(target: real, min: real, max: real): real
    requires min < max
  {
    (target - min) / (max - min)
  }

  /** A target within the range sits within the line: its fraction lies in
      [0, 1], 0 at `min` and 1 at `max`. */
  lemma CorrectFractionBounds(target: real, min: real, max: real)
    requires min <= target <= max && min < max
    ensures 0.0 <= CorrectFraction(target, min, max) <= 1.0
    ensures target == min ==> CorrectFraction(target, min, max) == 0.0
    ensures target == max ==> CorrectFraction(target, min, max) == 1.0
  {
    var w := max - min;
    assert (target - min) / w * w == target - min;
  }

  function Abs(x: real): (a: real)
    ensures a >= 0.0 && (a == x || a == -x)
  {
    if x >= 0.0 then x else -x
  }

  /** `percentageDifference`: how far the click at fraction `p` of the line
      is from the target's spot, in percent of the line. */
  function PercentageError(p: real, target: real, min: real, max: real): (e: real)
    requires min < max
    ensures e >= 0.0
    ensures p == CorrectFraction(target, min, max) ==> e == 0.0
  {
    Abs(p - CorrectFraction(target, min, max)) * 100.0
  }

  /** The error measured on the numbers themselves: the distance between
      the value clicked (`guessedValue`) and the target, as a percentage of
      the range. */
  lemma ErrorIsDistanceOfValues(p: real, target: real, min: real, max: real)
    requires min < max
    ensures var guessed := min + (max - min) * p;
      PercentageError(p, target, min, max) == Abs(guessed - target) / (max - min) * 100.0
  {
    var w := max - min;
    var guessed := min + w * p;
    var c := CorrectFraction(target, min, max);
    assert c * w == target - min;
    assert guessed - target == (p - c) * w;
    if p - c >= 0.0 {
      assert Abs(guessed - target) == (p - c) * w;
    } else {
      assert Abs(guessed - target) == (c - p) * w;
    }
    assert Abs(guessed - target) / w == Abs(p - c);
  }

  /** An error of 0 only comes from a click exactly on the target's spot. */
  lemma ZeroErrorOnlyOnTarget(p: real, target: real, min: real, max: real)
    requires min < max && PercentageError(p, target, min, max) == 0.0
    ensures p == CorrectFraction(target, min, max)
  {
  }

  // ---------------------------------------------------------------------
  // Rating

  datatype Rating = Rating(stars: nat, message: string)

  /** `showResults`: three stars up to 10 %, two up to 20 %, one up to 30 %,
      none beyond; each bound belongs to the better band. */
  function Rate(difference: real): (r: Rating)
    ensures r.stars <= 3
    ensures r.stars == 3 <==> difference <= 10.0
    ensures r.stars == 2 <==> 10.0 < difference <= 20.0
    ensures r.stars == 1 <==> 20.0 < difference <= 30.0
    ensures r.stars == 0 <==> 30.0 < difference
  {
    if difference <= 10.0 then Rating(3, "Amazing! Great job!")
    else if difference <= 20.0 then Rating(2, "Good work! Getting closer!")
    else if difference <= 30.0 then Rating(1, "Nice try! Keep practicing!")
    else Rating(0, "Keep trying! You'll get better with practice!")
  }

  /** A closer click never earns fewer stars. */
  lemma RateMonotone(d1: real, d2: real)
    requires d1 <= d2
    ensures Rate(d1).stars >= Rate(d2).stars
  {
  }

  /** Each star count comes with its own message. */
  lemma MessagePerStars(d1: real, d2: real)
    ensures Rate(d1).stars == Rate(d2).stars <==> Rate(d1).message == Rate(d2).message
  {
  }

  // ---------------------------------------------------------------------
  // Ranges

  /** A range chosen by the page: `max = min + size`. */
  datatype Span = Span(min: int, max: int)

  /** The draws one press of Next (or a tick of the large-numbers box) may
      consume, named after what they decide. */
  datatype RangeDraws = RangeDraws(
    band: real, sig: real, base: real, rangeSig: real, rangeBase: real,
    baseMin: real, gap: real, multiplier: real, negate: real, flip: real)

  predicate Draw(r: real)
  {
    0.0 <= r < 1.0
  }

  predicate DrawsValid(d: RangeDraws)
  {
    && Draw(d.band) && Draw(d.sig) && Draw(d.base) && Draw(d.rangeSig) && Draw(d.rangeBase)
    && Draw(d.baseMin) && Draw(d.gap) && Draw(d.multiplier) && Draw(d.negate) && Draw(d.flip)
  }

  /** `Math.floor(Math.log10(m))` of the three magnitudes 1 000, 10 000 and
      100 000. */
  function BandExponent(band: real): (e: nat)
    requires Draw(band)
    ensures 3 <= e <= 5
  {
    RandomBelow(band, 3) + 3
  }

  /** A round number with one or two significant digits, on the scale of
      `10^exponent`: `base * 10^(exponent - (sigDigits - 1))`. */
  function RoundNumber(exponent: nat, sig: real, base: real): (n: nat)
    requires exponent >= 1 && Draw(sig) && Draw(base)
    ensures Pow10(exponent) <= n < Pow10(exponent + 1)
  {
    var significantDigits := if sig < 0.5 then 1 else 2;
    var baseNumber := if significantDigits == 1 then RandomBelow(base, 9) + 1 else RandomBelow(base, 90) + 10;
    var unit := Pow10(exponent - (significantDigits - 1));
    assert Pow10(exponent) <= baseNumber * unit < Pow10(exponent + 1) by {
      assert Pow10(exponent + 1) == 10 * Pow10(exponent);
      assert Pow10(exponent) == 10 * Pow10(exponent - 1);
      if significantDigits == 1 {
        ScaleBounds(baseNumber, 1, 9, unit);
      } else {
        ScaleBounds(baseNumber, 10, 99, unit);
      }
    }
    baseNumber * unit
  }

  /** `randomizeRange` with large numbers: a round minimum and a round size
      on the drawn magnitude, the size clamped into
      [0.1 * magnitude.min, 0.9 * magnitude.max]; no sign flip. */
  function LargeRange(d: RangeDraws): Span
    requires DrawsValid(d)
  {
    var e := BandExponent(d.band);
    var newMin := RoundNumber(e, d.sig, d.base);
    var rangeSize := RoundNumber(e, d.rangeSig, d.rangeBase);
    var lowest, highest := Pow10(e) / 10, 9 * Pow10(e);
    var clamped :=
      if rangeSize < lowest then lowest
      else if rangeSize > highest then highest
      else rangeSize;
    Span(newMin, newMin + clamped)
  }

  /** `randomizeRange` without large numbers: a minimum of 1..9 times 10 or
      100, negated on a draw when negatives are allowed, a size of 1..9 of
      the same unit; then a second, independent flip. */
  function SmallRange(negatives: bool, d: RangeDraws): Span
    requires DrawsValid(d)
  {
    var baseMin := RandomBelow(d.baseMin, 9) + 1;
    var baseMax := baseMin + RandomBelow(d.gap, 9) + 1;
    var multiplier := if d.multiplier < 0.7 then 10 else 100;
    var newMin: int := if negatives && d.negate > 0.5 then -baseMin * multiplier else baseMin * multiplier;
    var flipped := if negatives && d.flip > 0.5 then -newMin else newMin;
    Span(flipped, flipped + (baseMax - baseMin) * multiplier)
  }

  /** The range `randomizeRange` sets. */
  function RandomRange(large: bool, negatives: bool, d: RangeDraws): Span
    requires DrawsValid(d)
  {
    if large then LargeRange(d) else SmallRange(negatives, d)
  }

  /** Every randomized range is non-empty. */
  lemma RandomRangeNonEmpty(large: bool, negatives: bool, d: RangeDraws)
    requires DrawsValid(d)
    ensures RandomRange(large, negatives, d).min < RandomRange(large, negatives, d).max
  {
  }

  /** In large mode the size stays within [0.1 * magnitude.min,
      0.9 * magnitude.max], the minimum is never negative and lies within
      the magnitude; the lower clamp can never fire, the upper one can (a
      size of 95 * 10^(e-1) exceeds 9 * 10^e). */
  lemma LargeRangeShape(d: RangeDraws)
    requires DrawsValid(d)
    ensures var e := BandExponent(d.band);
      var s := LargeRange(d);
      && Pow10(e) / 10 <= s.max - s.min <= 9 * Pow10(e)
      && Pow10(e) <= s.min < Pow10(e + 1)
      && RoundNumber(e, d.rangeSig, d.rangeBase) >= Pow10(e) / 10
  {
  }

  lemma UpperClampFires()
    ensures var d := RangeDraws(0.0, 0.0, 0.0, 0.5, 0.95, 0.0, 0.0, 0.0, 0.0, 0.0);
      RoundNumber(3, d.rangeSig, d.rangeBase) == 9500 && LargeRange(d) == Span(1000, 10000)
  {
    var d := RangeDraws(0.0, 0.0, 0.0, 0.5, 0.95, 0.0, 0.0, 0.0, 0.0, 0.0);
    assert RandomBelow(0.95, 90) == 85;
    assert Pow10(2) == 100 && Pow10(3) == 1000;
  }

  /** In small mode the size is a positive multiple of the unit (10 or 100),
      and both flips together leave the minimum positive. */
  lemma SmallRangeShape(negatives: bool, d: RangeDraws)
    requires DrawsValid(d)
    ensures var s := SmallRange(negatives, d);
      var unit := if d.multiplier < 0.7 then 10 else 100;
      && unit <= s.max - s.min <= 9 * unit
      && (s.max - s.min) % unit == 0
      && (negatives && d.negate > 0.5 && d.flip > 0.5 ==> s.min > 0)
      && (!negatives ==> s.min > 0)
  {
    var baseMin := RandomBelow(d.baseMin, 9) + 1;
    var gap := RandomBelow(d.gap, 9) + 1;
    var unit := if d.multiplier < 0.7 then 10 else 100;
    assert (baseMin + gap - baseMin) * unit == gap * unit;
  }

  /** `setLargeNumbersRange`: a round minimum and size on a drawn magnitude,
      no clamp, and the minimum negated on a draw when negatives are
      allowed. */
  function LargeDefaultRange(negatives: bool, d: RangeDraws): (s: Span)
    requires DrawsValid(d)
  {
    var e := BandExponent(d.band);
    var newMin: int := RoundNumber(e, d.sig, d.base);
    var rangeSize := RoundNumber(e, d.rangeSig, d.rangeBase);
    var signed: int := if negatives && d.flip > 0.5 then -newMin else newMin;
    Span(signed, signed + rangeSize)
  }

  /** Unlike `randomizeRange`, `setLargeNumbersRange` can give a negative
      minimum, and its size is never clamped. */
  lemma LargeDefaultRangeShape(negatives: bool, d: RangeDraws)
    requires DrawsValid(d)
    ensures var e := BandExponent(d.band);
      var s := LargeDefaultRange(negatives, d);
      && Pow10(e) <= s.max - s.min < Pow10(e + 1)
      && (s.min < 0 <==> negatives && d.flip > 0.5)
  {
  }

  /** `randomizeRange` of numberlines.js: a minimum in [-100, 99] and a size
      in [20, 199]. */
  function LegacyRandomRange(rMin: real, rSize: real): (s: Span)
    requires Draw(rMin) && Draw(rSize)
    ensures -100 <= s.min <= 99 && 20 <= s.max - s.min <= 199
  {
    var newMin := RandomBelow(rMin, 200) - 100;
    var rangeSize := RandomBelow(rSize, 180) + 20;
    Span(newMin, newMin + rangeSize)
  }
}
