/** The arithmetic of the rounding game, shared by `RoundingGame`
    (src/assets/js/framework/RoundingGame.js) and its earlier version
    (src/assets/js/rounding.js): which digit counts are offered, drawing a
    number with a given count of digits, the rounded answer, reading the
    player's significant digits back, and the geometry of the feedback line. */
module RoundingRules {

  import opened Wrappers
  import opened JsText
  import opened JsNumber

  // ---------------------------------------------------------------------
  // Problem generation

  /** The digit counts offered by the five difficulty boxes, 2 to 6 digits,
      in box order; when no box is checked, all five. */
  function EffectiveDigits(boxes: seq<bool>): (ds: seq<nat>)
    requires |boxes| == 5
    ensures |ds| > 0
    ensures forall i :: 0 <= i < |ds| ==> 2 <= ds[i] <= 6
  {
    var picked := Picked(boxes);
    if picked == [] then [2, 3, 4, 5, 6] else picked
  }

  /** The digit counts of the checked boxes, in box order. */
  function Picked(boxes: seq<bool>): seq<nat>
    requires |boxes| == 5
  {
    Push(Push(Push(Push(Push([], boxes[0], 2), boxes[1], 3), boxes[2], 4), boxes[3], 5), boxes[4], 6)
  }

  /** `if (checked) available.push(d)`. */
  function Push(available: seq<nat>, checked: bool, d: nat): seq<nat>
  {
    if checked then available + [d] else available
  }

  /** The loop of pushes over the five boxes, as both pages run it. */
  method CheckedDigits(boxes: seq<bool>) returns (available: seq<nat>)
    requires |boxes| == 5
    ensures available == Picked(boxes)
  {
    available := [];
    if boxes[0] { available := available + [2]; }
    assert available == Push([], boxes[0], 2);
    if boxes[1] { available := available + [3]; }
    if boxes[2] { available := available + [4]; }
    if boxes[3] { available := available + [5]; }
    if boxes[4] { available := available + [6]; }
  }

  /** With some box checked, exactly the checked counts are offered; with
      none, all five are. */
  lemma OfferedDigits(boxes: seq<bool>)
    requires |boxes| == 5
    ensures (forall i :: 0 <= i < 5 ==> !boxes[i]) ==> EffectiveDigits(boxes) == [2, 3, 4, 5, 6]
    ensures (exists i :: 0 <= i < 5 && boxes[i]) ==>
      forall d :: d in EffectiveDigits(boxes) <==> 2 <= d <= 6 && boxes[d - 2]
  {
  }

  /** No box checked offers exactly what all five boxes checked offer. */
  lemma NoneCheckedIsAllChecked()
    ensures EffectiveDigits([false, false, false, false, false]) == EffectiveDigits([true, true, true, true, true])
  {
  }

  /** `Math.floor(Math.random() * (max - min + 1)) + min` for the smallest and
      largest numbers with `d` digits: `r` is the draw. */
  function NumberWithDigits(d: nat, r: real): (n: nat)
    requires d >= 1 && 0.0 <= r < 1.0
    ensures Pow10(d - 1) <= n <= Pow10(d) - 1
  {
    RandomBelow(r, Pow10(d) - 1 - Pow10(d - 1) + 1) + Pow10(d - 1)
  }

  /** A number in `[10^(d-1), 10^d - 1]` is written with exactly `d` digits. */
  lemma {:induction false} DigitsOfDrawn(n: nat, d: nat)
    requires d >= 1 && Pow10(d - 1) <= n < Pow10(d)
    ensures |ShowNat(n)| == d
  {
    if d > 1 {
      DigitsOfDrawn(n / 10, d - 1);
    }
  }

  /** What a number of fewer than `10^k` digits looks like: at most `k` characters. */
  lemma {:induction false} ShortText(n: nat, k: nat)
    requires k >= 1 && n < Pow10(k)
    ensures |ShowNat(n)| <= k
  {
    if n >= 10 {
      ShortText(n / 10, k - 1);
    }
  }

  /** `expectedSignificantDigits`: up to 2 digits keep every digit, 3 digits
      keep 1, 4 to 6 digits keep 2. */
  function SignificantDigits(d: nat): (s: nat)
    ensures d >= 1 ==> 1 <= s <= d && s <= 2
  {
    if d <= 2 then d else if d <= 3 then 1 else 2
  }

  /** `trailingZerosCount`: the digits that rounding turns into zeros. */
  function TrailingZeros(d: nat): (z: nat)
    ensures SignificantDigits(d) + z == d
  {
    if d <= 2 then 0 else d - SignificantDigits(d)
  }

  // ---------------------------------------------------------------------
  // Rounding

  /** `r` is `n` rounded to a multiple of `step`, halves going up. */
  predicate IsRoundedTo(r: int, n: int, step: nat)
    requires step >= 1
  {
    r % step == 0 && 2 * (r - n) <= step && 2 * (n - r) < step
  }

  /** Multiplying by a positive number keeps the sign. */
  lemma SignOfProduct(a: real, c: real)
    requires c > 0.0
    ensures a * c >= 0.0 ==> a >= 0.0
    ensures a * c > 0.0 ==> a > 0.0
  {
  }

  /** A real quotient lies between the bounds its numerator does, scaled. */
  lemma QuotientBetween(num: real, den: real, lo: real, hi: real)
    requires den > 0.0 && lo * den <= num < hi * den
    ensures lo <= num / den < hi
  {
    var y := num / den;
    assert y * den == num;
    assert (y - lo) * den == num - lo * den;
    assert (hi - y) * den == hi * den - num;
    SignOfProduct(y - lo, den);
    SignOfProduct(hi - y, den);
  }

  /** `Math.round(n / step)` in whole numbers: the floor of
      `(2n + step) / (2 step)`. */
  lemma RoundQuotient(n: int, step: nat)
    requires step >= 1
    ensures RoundHalfUp(n as real / step as real) == (2 * n + step) / (2 * step)
  {
    var k := (2 * n + step) / (2 * step);
    var s := step as real;
    var ks := k * step;
    assert 2 * ks <= 2 * n + step < 2 * ks + 2 * step by {
      assert k * (2 * step) == 2 * ks;
    }
    assert ks as real == k as real * s;
    assert (k as real - 0.5) * s == ks as real - 0.5 * s;
    assert (k as real + 0.5) * s == ks as real + 0.5 * s;
    QuotientBetween(n as real, s, k as real - 0.5, k as real + 0.5);
  }

  /** The only multiple of `s` strictly between `-s` and `s` is 0. */
  lemma SmallMultiple(m: int, s: int)
    requires s >= 1 && -s < m * s < s
    ensures m == 0
  {
  }

  lemma PositiveFactor(q: int, step: int)
    requires step >= 1 && q * step > 0
    ensures q >= 1
  {
  }

  lemma SmallerFactor(q: int, p: int, step: int)
    requires step >= 1 && q * step < p * step
    ensures q < p
  {
  }

  /** A multiple of `step` leaves no remainder. */
  lemma MultipleMod(k: int, step: nat)
    requires step >= 1
    ensures (k * step) % step == 0
  {
    var m := k * step;
    var q, rem := m / step, m % step;
    assert m == step * q + rem && 0 <= rem < step;
    assert (k - q) * step == rem;
    SmallMultiple(k - q, step);
  }

  /** With no remainder, a number is its quotient times `step`. */
  lemma ModZero(r: int, step: nat)
    requires step >= 1 && r % step == 0
    ensures r == (r / step) * step
  {
    assert r == step * (r / step) + r % step;
  }

  /** `Math.round(n / step) * step` is `n` rounded to a multiple of `step`. */
  lemma RoundToStep(n: int, step: nat)
    requires step >= 1
    ensures IsRoundedTo(RoundHalfUp(n as real / step as real) * step, n, step)
  {
    RoundQuotient(n, step);
    var k := (2 * n + step) / (2 * step);
    var ks := k * step;
    assert 2 * ks <= 2 * n + step < 2 * ks + 2 * step by {
      assert k * (2 * step) == 2 * ks;
    }
    MultipleMod(k, step);
  }

  /** There is only one multiple of `step` rounded from `n`. */
  lemma RoundedIsUnique(r1: int, r2: int, n: int, step: nat)
    requires step >= 1 && IsRoundedTo(r1, n, step) && IsRoundedTo(r2, n, step)
    ensures r1 == r2
  {
    var a, b := r1 / step, r2 / step;
    ModZero(r1, step);
    ModZero(r2, step);
    assert (a - b) * step == r1 - r2;
    SmallMultiple(a - b, step);
  }

  /** `calculateRoundedAnswer` of RoundingGame: 1- and 2-digit numbers are
      their own answer; longer ones are rounded to their significant digits. */
  function RoundedAnswer(n: int, d: nat): (r: int)
    ensures d <= 2 ==> r == n
    ensures d >= 3 ==> IsRoundedTo(r, n, Pow10(TrailingZeros(d)))
  {
    if d <= 2 then n
    else
      var sigDigits := if d <= 3 then 1 else 2;
      var step := Pow10(d - sigDigits);
      RoundToStep(n, step);
      RoundHalfUp(n as real / step as real) * step
  }

  /** The worked example: 3456 rounds to 3500. */
  lemma RoundedExample()
    ensures RoundedAnswer(3456, 4) == 3500
  {
    RoundedIsUnique(RoundedAnswer(3456, 4), 3500, 3456, 100);
  }

  /** `calculateRoundedAnswer` of rounding.js: 2- and 3-digit numbers keep one
      significant digit, 4 to 6 digits keep two. */
  function LegacySignificantDigits(d: nat): nat
  {
    if d <= 3 then 1 else 2
  }

  function LegacyRoundedAnswer(n: int, d: nat): (r: int)
    requires d >= 1
    ensures IsRoundedTo(r, n, Pow10(d - LegacySignificantDigits(d)))
  {
    var sigDigits := if d <= 3 then 1 else 2;
    var step := Pow10(d - sigDigits);
    RoundToStep(n, step);
    RoundHalfUp(n as real / step as real) * step
  }

  /** The two versions differ only on 2-digit numbers, which the earlier one
      rounds to tens: 47 becomes 50 there and stays 47 in RoundingGame. */
  lemma LegacyRoundsTwoDigitsToTens()
    ensures LegacyRoundedAnswer(47, 2) == 50 && RoundedAnswer(47, 2) == 47
  {
    RoundedIsUnique(LegacyRoundedAnswer(47, 2), 50, 47, 10);
  }

  lemma LegacyAgreesFromThreeDigits(n: int, d: nat)
    requires d >= 3
    ensures LegacyRoundedAnswer(n, d) == RoundedAnswer(n, d)
  {
  }

  // ---------------------------------------------------------------------
  // Reading the answer back

  /** `updateTrailingZeros`: input longer than `k` characters is cut to its
      first `k`. */
  function Truncate(input: string, k: nat): (r: string)
    ensures |r| <= k && |r| <= |input| && r == input[..|r|]
    ensures |input| <= k ==> r == input
  {
    if |input| > k then input[..k] else input
  }

  datatype Outcome = InvalidInput | Checked(userAnswer: int, isCorrect: bool)

  /** `checkAnswer` of RoundingGame: the trimmed input must be non-empty and
      start like an integer; the digits typed, followed by the trailing zeros,
      are compared with the rounded answer. */
  function CheckRounding(input: string, trailingZeros: nat, correctAnswer: int): (o: Outcome)
    ensures o.Checked? ==> (o.isCorrect <==> o.userAnswer == correctAnswer)
    ensures o.InvalidInput? <==> Trim(input) == "" || ParseInt(Trim(input)).None?
  {
    var typed := Trim(input);
    if typed == "" then InvalidInput
    else match ParseInt(typed)
      case None => InvalidInput
      case Some(v) =>
        var userAnswer := v * Pow10(trailingZeros);
        Checked(userAnswer, userAnswer == correctAnswer)
  }

  /** Typing a number's own digits reads back that number. */
  lemma ReadBack(q: nat, trailingZeros: nat, correctAnswer: int)
    ensures CheckRounding(ShowNat(q), trailingZeros, correctAnswer)
      == Checked(q * Pow10(trailingZeros), q * Pow10(trailingZeros) == correctAnswer)
  {
    ShowNatTrimmed(q);
    ParseIntShowNat(q);
  }

  /** The worked example: for 3456, "35" is right and "34" is not. */
  lemma CheckExample()
    ensures CheckRounding("35", TrailingZeros(4), RoundedAnswer(3456, 4)) == Checked(3500, true)
    ensures CheckRounding("34", TrailingZeros(4), RoundedAnswer(3456, 4)) == Checked(3400, false)
  {
    RoundedExample();
    assert TrailingZeros(4) == 2 && Pow10(2) == 100;
    assert ShowNat(35) == "35" by {
      assert ShowNat(3) == "3";
    }
    assert ShowNat(34) == "34" by {
      assert ShowNat(3) == "3";
    }
    ReadBack(35, 2, 3500);
    ReadBack(34, 2, 3500);
  }

  /** `checkAnswer` of rounding.js: `parseInt` of the whole input is the
      answer, and there is no truncation and no trim. */
  function CheckLegacy(input: string, correctAnswer: int): (o: Outcome)
    ensures o.InvalidInput? <==> ParseInt(input).None?
    ensures o.Checked? ==> (o.isCorrect <==> o.userAnswer == correctAnswer)
  {
    match ParseInt(input)
    case None => InvalidInput
    case Some(v) => Checked(v, v == correctAnswer)
  }

  /** A rounded answer can carry into one more digit (950..999 become 1000):
      then it has more significant digits than the input box accepts. */
  predicate Carries(n: int, d: nat)
  {
    RoundedAnswer(n, d) >= Pow10(d)
  }

  lemma CarryExample()
    ensures Carries(999, 3) && RoundedAnswer(999, 3) == 1000
  {
    RoundedIsUnique(RoundedAnswer(999, 3), 1000, 999, 100);
  }

  /** A rounded answer for a number of at least `step` that stays below
      `bound * step` is a whole number of steps between 1 and `bound`. */
  lemma StepsOfAnswer(n: int, answer: int, step: nat, bound: nat)
    requires step >= 1 && IsRoundedTo(answer, n, step) && n >= step && answer < bound * step
    ensures 1 <= answer / step < bound && answer == (answer / step) * step
  {
    ModZero(answer, step);
    PositiveFactor(answer / step, step);
    SmallerFactor(answer / step, bound, step);
  }

  /** When the rounding of a drawn number does not carry, its answer can be
      typed within `expectedSignificantDigits` characters (so the cut made
      by `updateTrailingZeros` leaves it whole) and is marked correct. */
  lemma NoCarryIsEnterable(n: nat, d: nat)
    requires 2 <= d <= 6 && Pow10(d - 1) <= n < Pow10(d) && !Carries(n, d)
    ensures var s := ShowNat(RoundedAnswer(n, d) / Pow10(TrailingZeros(d)));
      && |s| <= SignificantDigits(d)
      && Truncate(s, SignificantDigits(d)) == s
      && CheckRounding(s, TrailingZeros(d), RoundedAnswer(n, d)) == Checked(RoundedAnswer(n, d), true)
  {
    var answer := RoundedAnswer(n, d);
    if d <= 2 {
      assert answer == n && TrailingZeros(d) == 0 && Pow10(0) == 1;
      assert answer / Pow10(TrailingZeros(d)) == n;
      DigitsOfDrawn(n, d);
      ReadBack(n, 0, answer);
    } else {
      var sig, tz := SignificantDigits(d), TrailingZeros(d);
      assert sig + tz == d && tz <= d - 1;
      Pow10Monotone(tz, d - 1);
      RoundedEntry(n, answer, sig, tz);
    }
  }

  lemma RoundedEntry(n: nat, answer: int, sig: nat, tz: nat)
    requires sig >= 1 && IsRoundedTo(answer, n, Pow10(tz))
    requires Pow10(tz) <= n && answer < Pow10(sig + tz)
    ensures var s := ShowNat(answer / Pow10(tz));
      |s| <= sig && CheckRounding(s, tz, answer) == Checked(answer, true)
  {
    var step := Pow10(tz);
    Pow10Add(sig, tz);
    StepsOfAnswer(n, answer, step, Pow10(sig));
    var q := answer / step;
    ShortText(q, sig);
    ReadBack(q, tz, answer);
  }

  /** Whatever is typed in at most `sig` characters reads back below
      `10^(sig + tz)` once `tz` zeros are appended. */
  lemma ShortEntryBound(s: string, sig: nat, tz: nat, answer: int)
    requires 1 <= sig <= 2 && |s| <= sig
    ensures var o := CheckRounding(s, tz, answer);
      o.Checked? ==> o.userAnswer < Pow10(sig + tz)
  {
    Pow10Add(sig, tz);
    var t := Trim(s);
    if t != "" && ParseInt(t).Some? {
      var v := ParseInt(t).value;
      ShortParseBound(t, v);
      Pow10Monotone(|t|, sig);
      SmallerProduct(v, Pow10(sig), Pow10(tz));
    }
  }

  lemma SmallerProduct(v: int, p: int, step: int)
    requires v < p && step >= 1
    ensures v * step < p * step
  {
  }

  /** When the rounding carries, nothing typed within
      `expectedSignificantDigits` characters is marked correct. */
  lemma CarryIsNotEnterable(n: nat, d: nat, s: string)
    requires 2 <= d <= 6 && Carries(n, d) && |s| <= SignificantDigits(d)
    ensures CheckRounding(s, TrailingZeros(d), RoundedAnswer(n, d)) != Checked(RoundedAnswer(n, d), true)
  {
    var sig, tz, answer := SignificantDigits(d), TrailingZeros(d), RoundedAnswer(n, d);
    assert sig + tz == d;
    ShortEntryBound(s, sig, tz, answer);
    BoundedEntryMisses(CheckRounding(s, tz, answer), Pow10(sig + tz), answer);
  }

  lemma BoundedEntryMisses(o: Outcome, bound: int, answer: int)
    requires o.Checked? ==> o.userAnswer < bound
    requires answer >= bound
    ensures o != Checked(answer, true)
  {
  }

  // ---------------------------------------------------------------------
  // The feedback line

  /** The visible stretch of the feedback number line. */
  datatype Axis = Axis(displayMin: real, displayMax: real)

  function Min3(a: int, b: int, c: int): (m: int)
    ensures m <= a && m <= b && m <= c && (m == a || m == b || m == c)
  {
    if a <= b && a <= c then a else if b <= c then b else c
  }

  function Max3(a: int, b: int, c: int): (m: int)
    ensures m >= a && m >= b && m >= c && (m == a || m == b || m == c)
  {
    if a >= b && a >= c then a else if b >= c then b else c
  }

  /** `showNumberLineVisualization` of RoundingGame: the three values widened
      by a buffer of a tenth of the largest value when their spread is under
      that, otherwise a tenth of the spread; the left end is never below 0. */
  function RoundingAxis(original: int, guess: int, correct: int): Axis
  {
    var lo := Min3(original, guess, correct) as real;
    var hi := Max3(original, guess, correct) as real;
    var buffer := if hi - lo < hi * 0.1 then hi * 0.1 else (hi - lo) * 0.1;
    Axis(if lo - buffer > 0.0 then lo - buffer else 0.0, hi + buffer)
  }

  /** Where a marker sits, as a percentage of the axis. */
  function MarkerPosition(v: real, axis: Axis): (p: real)
    requires axis.displayMin < axis.displayMax
    ensures axis.displayMin <= v <= axis.displayMax ==> 0.0 <= p <= 100.0
    ensures v == axis.displayMin ==> p == 0.0
    ensures v == axis.displayMax ==> p == 100.0
  {
    var a, w := v - axis.displayMin, axis.displayMax - axis.displayMin;
    PercentOfWidth(a, w);
    assert w / w == 1.0;
    a / w * 100.0
  }

  /** A point's place on a stretch of width `w`, as a percentage. */
  lemma PercentOfWidth(a: real, w: real)
    requires w > 0.0
    ensures 0.0 <= a <= w ==> 0.0 <= a / w * 100.0 <= 100.0
    ensures 0.0 < a < w ==> 0.0 < a / w * 100.0 < 100.0
    ensures a < 0.0 ==> a / w * 100.0 < 0.0
  {
    QuotientBetween(a, w, a / w, a / w + 1.0);
    if 0.0 <= a <= w {
      QuotientBetween(a, w, 0.0, 1.0 + 1.0 / w);
      assert (a / w) * w == a;
      SignOfProduct(1.0 - a / w, w);
      assert (1.0 - a / w) * w == w - a;
    }
    if 0.0 < a < w {
      assert (a / w) * w == a;
      SignOfProduct(a / w, w);
      SignOfProduct(1.0 - a / w, w);
      assert (1.0 - a / w) * w == w - a;
    }
    if a < 0.0 {
      assert (a / w) * w == a;
      SignOfProduct(-(a / w), w);
      assert (-(a / w)) * w == -a;
    }
  }

  /** The axis of RoundingGame starts at or after 0 and is never empty when
      the largest value is positive (the drawn number always is); every value
      of the three that is not negative gets a marker within [0, 100], and a
      negative guess falls off the left end. */
  lemma RoundingAxisSound(original: int, guess: int, correct: int, v: int)
    requires Max3(original, guess, correct) > 0
    requires v == original || v == guess || v == correct
    ensures var axis := RoundingAxis(original, guess, correct);
      && 0.0 <= axis.displayMin < axis.displayMax
      && (v >= 0 ==> 0.0 <= MarkerPosition(v as real, axis) <= 100.0)
      && (v < 0 ==> MarkerPosition(v as real, axis) < 0.0)
  {
    var axis := RoundingAxis(original, guess, correct);
    var lo := Min3(original, guess, correct) as real;
    var width := axis.displayMax - axis.displayMin;
    assert axis.displayMin <= (if lo > 0.0 then lo else 0.0);
    PercentOfWidth(v as real - axis.displayMin, width);
  }

  /** The buffer is not the larger of the two candidates: for 100, 50 and 100
      the spread is at least a tenth of the largest value, so the buffer is
      5, not 10. */
  lemma BufferExample()
    ensures RoundingAxis(100, 50, 100) == Axis(45.0, 105.0)
  {
  }

  /** `showNumberLineVisualization` of rounding.js: from 0.8 times the
      smallest to 1.2 times the largest of the three values. */
  function LegacyAxis(original: int, guess: int, correct: int): Axis
  {
    Axis(Min3(original, guess, correct) as real * 0.8, Max3(original, guess, correct) as real * 1.2)
  }

  /** The earlier axis is never empty while the largest value is positive;
      when all three are positive every marker lies strictly inside it, and a
      negative smallest value falls off the left end. */
  lemma LegacyAxisSound(original: int, guess: int, correct: int, v: int)
    requires Max3(original, guess, correct) > 0
    requires v == original || v == guess || v == correct
    ensures var axis := LegacyAxis(original, guess, correct);
      && axis.displayMin < axis.displayMax
      && (Min3(original, guess, correct) > 0 ==> 0.0 < MarkerPosition(v as real, axis) < 100.0)
      && (v == Min3(original, guess, correct) < 0 ==> MarkerPosition(v as real, axis) < 0.0)
  {
    var axis := LegacyAxis(original, guess, correct);
    PercentOfWidth(v as real - axis.displayMin, axis.displayMax - axis.displayMin);
  }

  /** What the feedback line shows after a wrong answer: its axis, the three
      markers as percentages along it, and how far the guess and the correct
      answer are from the original number. */
  datatype Picture = Picture(axis: Axis, originalPos: real, guessPos: real, correctPos: real,
                             guessDiff: nat, correctDiff: nat)

  function Distance(a: int, b: int): (d: nat)
    ensures d == a - b || d == b - a
  {
    if a >= b then a - b else b - a
  }

  function PictureOn(axis: Axis, original: int, guess: int, correct: int): Picture
    requires axis.displayMin < axis.displayMax
  {
    Picture(axis, MarkerPosition(original as real, axis), MarkerPosition(guess as real, axis),
            MarkerPosition(correct as real, axis), Distance(original, guess), Distance(original, correct))
  }

  /** `showNumberLineVisualization` of RoundingGame. For a drawn (positive)
      number and a rounded answer that is not negative, the original and
      correct markers lie on the line; the guess marker does too unless the
      guess is negative, when it falls off the left end. */
  function Visualize(original: int, guess: int, correct: int): (p: Picture)
    requires original > 0 && correct >= 0
    ensures 0.0 <= p.axis.displayMin < p.axis.displayMax
    ensures 0.0 <= p.originalPos <= 100.0 && 0.0 <= p.correctPos <= 100.0
    ensures guess >= 0 <==> 0.0 <= p.guessPos <= 100.0
    ensures p.guessDiff == Distance(original, guess) && p.correctDiff == Distance(original, correct)
  {
    RoundingAxisSound(original, guess, correct, original);
    RoundingAxisSound(original, guess, correct, guess);
    RoundingAxisSound(original, guess, correct, correct);
    PictureOn(RoundingAxis(original, guess, correct), original, guess, correct)
  }

  /** `showNumberLineVisualization` of rounding.js. With all three values
      positive every marker lies strictly inside the line; a guess of 0 or
      less is the smallest value and sits at or left of the left end. */
  function LegacyVisualize(original: int, guess: int, correct: int): (p: Picture)
    requires original > 0 && correct >= 0
    ensures p.axis.displayMin < p.axis.displayMax
    ensures guess > 0 && correct > 0 ==>
      0.0 < p.originalPos < 100.0 && 0.0 < p.guessPos < 100.0 && 0.0 < p.correctPos < 100.0
    ensures guess < 0 ==> p.guessPos < 0.0
    ensures p.guessDiff == Distance(original, guess) && p.correctDiff == Distance(original, correct)
  {
    LegacyAxisSound(original, guess, correct, original);
    LegacyAxisSound(original, guess, correct, guess);
    LegacyAxisSound(original, guess, correct, correct);
    PictureOn(LegacyAxis(original, guess, correct), original, guess, correct)
  }
}
