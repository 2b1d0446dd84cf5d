# kids-math-app, modelled in Dafny

This project models the logic of the kids-math-app practice pages and
proves properties about that model. The app is a browser application with
the following parts:

- **Cache.** A time-to-live cache over `localStorage` (`StorageWithTTL`).
- **Game shell.** The `BaseGame` shell that keeps a game's counters and
  accuracy.
- **Rounding quiz.** The current page (`RoundingGame`) and its earlier stand-alone
  version (`rounding.js`).
- **Number-line game.** The current page (`NumberLinesGame`) and its earlier
  stand-alone version (`numberlines.js`).
- **AI sandbox modules.** The saved-module list, the turning of an AI answer
  into a module and its validation, and the page that plays a module and
  judges typed answers (`isAnswerCorrect`).
- **Arithmetic generators.** The four problem generators of
  `mathProblems.js`.

Each core file is one Dafny module. The pages that keep state in fields or
closure variables are classes whose methods change those fields under
`modifies` clauses. Each such method is proved against specification
functions, and lemmas state what the source promises about those
functions. Pure code is written as functions and lemmas. Three shared
modules give the JavaScript built-ins the source relies on:

- `JsText`: `trim` with JavaScript's white-space set, ASCII `toLowerCase`
  and `indexOf`.
- `JsNumber`: `Math.round`, `Math.floor(Math.random() * n)`, `parseInt`,
  `parseFloat`, `Number()` on strings, and `${n}` for whole numbers.
- `Json`: an abstract parsed JSON value and JavaScript truthiness.

The outside world is passed in as parameters:

- Each `Math.random()` draw is a `real` in [0, 1).
- `Date.now()` is an integer `now`.
- `JSON.parse` of an AI answer is a function parameter.
- The generated module id is a string parameter.
- Events such as clicks, key presses and ticking an option box are method calls. The difficulty, randomize and negatives boxes have no listeners of their own, so their setters change only the box, and the next draw reads it.


## Model

| member | source | states |
|---|---|---|
| Storage.ExpiryFor | src/assets/js/storage-utils.js:15-19 | the stored expiry is `null` exactly when the TTL is `null` or `0`, otherwise it is `now + ttl` |
| Storage.Put | src/assets/js/storage-utils.js:15-20 | a set adds the key, stores the value with its expiry under it and leaves every other key as it was |
| Storage.Remove | src/assets/js/storage-utils.js:48-50 | a remove drops that key and keeps every other entry |
| Storage.Expired | src/assets/js/storage-utils.js:34 | `item.expiry && Date.now() > item.expiry`: a missing or zero expiry never expires, and an entry is live at its expiry time |
| Storage.Read | src/assets/js/storage-utils.js:28-42 | a get gives a value iff an unexpired entry is stored under the key, and then its value; it only ever removes, and removes exactly the key when the entry has expired, returning `null` |
| Storage.StorageWithTtl.constructor | src/assets/js/storage-utils.js:5-7 | the cache starts over the given backend |
| Storage.StorageWithTtl.SetWithTtl | src/assets/js/storage-utils.js:15-21 | the new backend is the old one with the entry written under `key` |
| Storage.StorageWithTtl.GetWithTtl | src/assets/js/storage-utils.js:28-42 | the result and the backend left behind are those of `getWithTTL`: `null` for a missing, empty or malformed record, eviction of an expired one, the value otherwise |
| Storage.StorageWithTtl.RemoveItem | src/assets/js/storage-utils.js:48-50 | the new backend is the old one without `key` |
| Storage.SetThenGetLive | src/assets/js/storage-utils.js:15-38 | a get at or before the expiry of what was just set returns it and changes nothing, because the expiry test is a strict `>` |
| Storage.SetThenGetExpired | src/assets/js/storage-utils.js:34-36 | a get after a non-zero expiry returns `null` and removes the key |
| Storage.NoTtlNeverExpires | src/assets/js/storage-utils.js:18-34 | a TTL of `null` or `0` stores no expiry, and every later get returns the value |
| Storage.MissingOrEmptyIsNull | src/assets/js/storage-utils.js:29-30 | a missing key or an empty stored string reads as `null` and leaves the backend unchanged |
| Storage.MalformedIsKept | src/assets/js/storage-utils.js:32-41 | a malformed record reads as `null` without being removed |
| Storage.ReadChangesOnlyItsKey | src/assets/js/storage-utils.js:28-42 | a get leaves the backend unchanged, or removes exactly its own key when that entry has expired |
| Storage.ReadIsStable | src/assets/js/storage-utils.js:28-42 | a second get at the same time gives the same result and leaves the same backend |
| Storage.ExpiryIsPermanent | src/assets/js/storage-utils.js:34 | once an entry has expired, every later get returns `null` |
| Storage.RemoveAbsentIsNoop | src/assets/js/storage-utils.js:48-50 | removing an absent key changes nothing |
| BaseGame.Recorded | src/assets/js/framework/BaseGame.js:98-100 | one outcome adds exactly one attempt, adds one correct answer iff it was correct, and leaves `bestScore` alone |
| BaseGame.RecordedKeepsConsistent | src/assets/js/framework/BaseGame.js:99-100 | recording an outcome preserves `0 <= correct <= attempts` |
| BaseGame.AccuracyBounds | src/assets/js/framework/BaseGame.js:105-146 | accuracy lies in [0, 100]; it is 0 with no attempts or no correct answers and 100 when every attempt was correct |
| BaseGame.AccuracyMonotone | src/assets/js/framework/BaseGame.js:105-106 | more correct answers out of the same attempts never lower the accuracy |
| BaseGame.StatTitle | src/assets/js/framework/BaseGame.js:63-66 | a non-empty title at the index is returned; an empty title, or any index outside the list, gives `'Stat'`; the result is never empty |
| BaseGame.BaseTitleOutside | src/assets/js/framework/BaseGame.js:63-66 | with the shell's three titles, every index outside 0..2 is titled `'Stat'` |
| BaseGame.StatsKey | src/assets/js/framework/BaseGame.js:119 | the key is the game type followed by `-stats` |
| BaseGame.Accuracy | src/assets/js/framework/BaseGame.js:105-106 | `Math.round(correct / attempts * 100)`, or 0 without attempts; its bounds are `AccuracyBounds` and its order `AccuracyMonotone` |
| BaseGame.Game.constructor | src/assets/js/framework/BaseGame.js:10-19 | a new game has zeroed counters and is not initialized |
| BaseGame.Game.Init | src/assets/js/framework/BaseGame.js:24-31 | after `init` the game is initialized and its counters are untouched, so a second call does nothing more |
| BaseGame.Game.SaveStats | src/assets/js/framework/BaseGame.js:116-123 | the counters are written under `"<gameType>-stats"` with no TTL, and nothing is written when the cache is absent |
| BaseGame.Game.UpdateStats | src/assets/js/framework/BaseGame.js:98-111 | the counters become `Recorded(old, isCorrect)` and are saved |
| BaseGame.Game.LoadStats | src/assets/js/framework/BaseGame.js:128-136 | a saved value replaces the counters; a `null` read (missing, expired, malformed) leaves them as they were |
| BaseGame.Game.AccuracyPercent | src/assets/js/framework/BaseGame.js:145-146 | the accuracy shown for the game's counters, which is `Accuracy` of them |
| BaseGame.SaveThenLoad | src/assets/js/framework/BaseGame.js:116-135 | what `saveStats` writes, a later `loadStats` reads back at any time |
| RoundingRules.EffectiveDigits | src/assets/js/framework/RoundingGame.js:90-100 | the offered digit counts are never empty and each lies in 2..6 |
| RoundingRules.OfferedDigits | src/assets/js/framework/RoundingGame.js:90-100 | with some box checked exactly the checked counts are offered (both directions); with none, all of 2..6 |
| RoundingRules.NoneCheckedIsAllChecked | src/assets/js/framework/RoundingGame.js:99-107 | no box checked offers the same counts as all five checked |
| RoundingRules.CheckedDigits | src/assets/js/framework/RoundingGame.js:90-96 | the five pushes collect the checked counts in box order, as both pages do (the legacy page: rounding.js:72-77) |
| RoundingRules.NumberWithDigits | src/assets/js/framework/RoundingGame.js:114-116 | the drawn number lies in `[10^(d-1), 10^d - 1]` |
| RoundingRules.DigitsOfDrawn | src/assets/js/framework/RoundingGame.js:114-116 | every number in that range is written with exactly `d` digits |
| RoundingRules.RoundToStep | src/assets/js/framework/RoundingGame.js:165-168 | `Math.round(n / step) * step` is a multiple of `step` within half a step of `n`, halves rounding up |
| RoundingRules.RoundQuotient | src/assets/js/framework/RoundingGame.js:168 | `Math.round(n / step)` equals the integer floor of `(2n + step) / (2 step)` |
| RoundingRules.RoundedIsUnique | src/assets/js/framework/RoundingGame.js:168 | at most one multiple of `step` is `n` rounded half-up |
| RoundingRules.RoundedAnswer | src/assets/js/framework/RoundingGame.js:154-169 | numbers of up to two digits are their own answer; longer ones are rounded to a multiple of `10^trailingZeros` |
| RoundingRules.RoundedExample | src/assets/js/framework/RoundingGame.js:154-169 | 3456 with four digits rounds to 3500 |
| RoundingRules.SignificantDigits | src/assets/js/framework/RoundingGame.js:122-130 | the digits kept are 1 or 2, never more than the number has |
| RoundingRules.TrailingZeros | src/assets/js/framework/RoundingGame.js:122-130 | the kept digits and the trailing zeros add up to the digit count |
| RoundingRules.LegacyRoundedAnswer | src/assets/js/rounding.js:106-116 | the earlier answer is `n` rounded to a multiple of `10^(d - sig)`, with one significant digit up to three digits and two after |
| RoundingRules.LegacyRoundsTwoDigitsToTens | src/assets/js/framework/RoundingGame.js:156-158 | the two versions differ on two digits: 47 is answered 50 by the earlier page and 47 by RoundingGame (the legacy page: rounding.js:109) |
| RoundingRules.LegacyAgreesFromThreeDigits | src/assets/js/framework/RoundingGame.js:160-168 | from three digits on, both versions give the same answer (the legacy page: rounding.js:106-116) |
| RoundingRules.Truncate | src/assets/js/framework/RoundingGame.js:149-150 | the cut input is a prefix of the input of at most `k` characters, and input of at most `k` characters is kept whole |
| RoundingRules.CheckRounding | src/assets/js/framework/RoundingGame.js:173-185 | the input is rejected exactly when its trimmed text is empty or `parseInt` gives `NaN`; otherwise the answer is correct iff the digits times `10^trailingZeros` equal the rounded answer |
| RoundingRules.ReadBack | src/assets/js/framework/RoundingGame.js:173-185 | typing a number's own digits reads back that number times `10^trailingZeros` |
| RoundingRules.CheckExample | src/assets/js/framework/RoundingGame.js:171-197 | for 3456, typing `35` is correct (3500) and `34` is not (3400) |
| RoundingRules.CheckLegacy | src/assets/js/rounding.js:118-132 | the earlier check rejects exactly what `parseInt` gives `NaN` for, and is correct iff the parsed number equals the answer |
| RoundingRules.CarryExample | src/assets/js/framework/RoundingGame.js:154-169 | 999 rounds to 1000, one digit more than it has |
| RoundingRules.NoCarryIsEnterable | src/assets/js/framework/RoundingGame.js:122-185 | when the rounding does not carry, the answer's significant digits fit the input box, survive the truncation and are marked correct |
| RoundingRules.RoundedEntry | src/assets/js/framework/RoundingGame.js:173-185 | a rounded answer below `10^(sig+tz)` is typed in at most `sig` characters and is marked correct |
| RoundingRules.ShortEntryBound | src/assets/js/framework/RoundingGame.js:149-182 | whatever fits in `sig` characters reads back below `10^(sig+tz)` |
| RoundingRules.CarryIsNotEnterable | src/assets/js/framework/RoundingGame.js:147-185 | when the rounding carries, nothing that fits in the input box is marked correct |
| RoundingRules.Min3 | src/assets/js/framework/RoundingGame.js:222 | `Math.min` of three values is one of them and no larger than any |
| RoundingRules.Max3 | src/assets/js/framework/RoundingGame.js:223 | `Math.max` of three values is one of them and no smaller than any |
| RoundingRules.PercentOfWidth | src/assets/js/framework/RoundingGame.js:242-244 | a point inside a stretch maps into [0, 100] (strictly inside for an inner point) and a point left of it maps below 0 |
| RoundingRules.MarkerPosition | src/assets/js/framework/RoundingGame.js:242-244 | a value on the axis gets a marker in [0, 100], 0 at its start and 100 at its end |
| RoundingRules.RoundingAxis | src/assets/js/framework/RoundingGame.js:222-240 | the axis around the three values with a tenth of buffer; its soundness is `RoundingAxisSound` |
| RoundingRules.LegacyAxis | src/assets/js/rounding.js:174-181 | the earlier axis from 80% of the smallest to 120% of the largest value; its soundness is `LegacyAxisSound` |
| RoundingRules.PictureOn | src/assets/js/framework/RoundingGame.js:242-253 | the three markers on an axis and the two distances; what they show is stated by `Visualize` |
| RoundingRules.RoundingAxisSound | src/assets/js/framework/RoundingGame.js:222-244 | the axis starts at or after 0 and is never empty; a non-negative value's marker lies in [0, 100], a negative one left of 0 |
| RoundingRules.BufferExample | src/assets/js/framework/RoundingGame.js:229-238 | for 100, 50 and 100 the buffer is the tenth of the spread, 5, so the axis is [45, 105] |
| RoundingRules.LegacyAxisSound | src/assets/js/rounding.js:174-181 | the earlier axis is never empty; with all values positive every marker lies strictly inside it, and a negative smallest value falls left of it |
| RoundingRules.Distance | src/assets/js/framework/RoundingGame.js:214-215 | `Math.abs(a - b)` is one of `a - b`, `b - a` and never negative |
| RoundingRules.Visualize | src/assets/js/framework/RoundingGame.js:199-253 | the original and correct markers lie on the line; the guess marker lies on it iff the guess is not negative; the two differences are the distances to the original |
| RoundingRules.LegacyVisualize | src/assets/js/rounding.js:151-190 | with a positive guess and answer every marker lies strictly inside the line; a negative guess falls left of it; the differences are the distances to the original |
| RoundingGame.TitlesOfRounding | src/assets/js/framework/RoundingGame.js:30-33 | the three titles are returned for indices 0..2 and `'Stat'` for every other index |
| RoundingGame.Game.constructor | src/assets/js/framework/RoundingGame.js:4-14 | a new game is of type `rounding`, with zero counters and zeroed number, answer and digit counts |
| RoundingGame.Game.SetBox | src/assets/js/framework/RoundingGame.js:90-96 | ticking or clearing one difficulty box changes that box only; the next problem reads the boxes afresh |
| RoundingGame.Game.Init | src/assets/js/framework/RoundingGame.js:16-28 | `init` marks the shell initialized and keeps the stats; the first problem has the digit count that `pick` selects from `EffectiveDigits` of the boxes, the number `draw` gives for it, and all five boxes ticked if none was; the box, feedback line, picture and buttons are left as they were |
| RoundingGame.Game.CollectDigits | src/assets/js/framework/RoundingGame.js:90-108 | the counts collected are `EffectiveDigits` of the boxes, and all five boxes become checked when none was |
| RoundingGame.Game.GenerateNewProblem | src/assets/js/framework/RoundingGame.js:88-141 | the digit count is the offered count the draw picks, the number has that many digits, and the answer, significant digits and trailing zeros match it |
| RoundingGame.Game.PoseNumber | src/assets/js/framework/RoundingGame.js:114-133 | the number drawn has the given digit count, and the answer, significant digits and trailing zeros are set from it |
| RoundingGame.Game.UpdateTrailingZeros | src/assets/js/framework/RoundingGame.js:147-152 | the input becomes its first `expectedSignificantDigits` characters and nothing else changes |
| RoundingGame.Game.Type | src/assets/js/framework/RoundingGame.js:55-152 | typed text lands in the box already cut to the expected length |
| RoundingGame.Game.CheckAnswer | src/assets/js/framework/RoundingGame.js:171-197 | an invalid entry only asks for a valid number; a checked one shows the verdict, draws the line after a miss, records the outcome and saves the stats |
| RoundingGame.Game.Respond | src/assets/js/framework/RoundingGame.js:176-196 | the feedback, picture and stats follow the outcome as in `checkAnswer` |
| RoundingGame.Game.ClickCheck | src/assets/js/framework/RoundingGame.js:57-61 | Check swaps the buttons, whatever the outcome, and gives the `Responded` state of checking the box against the unchanged problem (boxes, digit count, number, answer, significant digits and trailing zeros all kept) |
| RoundingGame.Game.ClickNext | src/assets/js/framework/RoundingGame.js:63-73 | Next poses the problem whose digit count `pick` selects from `EffectiveDigits` of the boxes and whose number `draw` gives, ticks all boxes if none was, and clears the box, the feedback and the line, showing Check again |
| RoundingGame.Game.PressEnter | src/assets/js/framework/RoundingGame.js:75-85 | while Check is shown, Enter keeps the boxes and the problem and gives exactly the `Responded` state of checking the box (verdict, line, counters, saved stats), then swaps to Next; while Next is shown it poses the problem `pick` and `draw` select, with the boxes all ticked if none was, clears the page and leaves the stats and the cache alone |
| RoundingGame.RoundedIsNotNegative | src/assets/js/framework/RoundingGame.js:154-169 | the answer to a drawn number is never negative |
| LegacyRounding.Page.constructor | src/assets/js/rounding.js:19-26 | the page starts with zero counters and an empty box, and poses the number whose digit count `pick` selects from `EffectiveDigits` of the boxes and which `draw` gives, ticking all boxes if none was |
| LegacyRounding.Page.SetBox | src/assets/js/rounding.js:72-77 | ticking or clearing one difficulty box changes that box only; the next number reads the boxes afresh |
| LegacyRounding.Page.CollectDigits | src/assets/js/rounding.js:72-89 | the counts collected are `EffectiveDigits` of the boxes, and all five boxes become checked when none was |
| LegacyRounding.Page.GenerateNewNumber | src/assets/js/rounding.js:70-104 | the digit count is the offered count the draw picks, the number has that many digits and the answer is its earlier rounding |
| LegacyRounding.Page.PoseNumber | src/assets/js/rounding.js:95-103 | the number drawn has the given digit count and the answer is its earlier rounding |
| LegacyRounding.Page.CheckAnswer | src/assets/js/rounding.js:118-149 | `NaN` only asks for a valid number; anything else counts one question, one correct answer iff it equals the answer, and draws the line after a miss |
| LegacyRounding.Page.Respond | src/assets/js/rounding.js:122-145 | the feedback, counters and picture follow the outcome as in `checkAnswer` |
| LegacyRounding.Page.AccuracyShown | src/assets/js/rounding.js:192-199 | the accuracy lies in [0, 100], is 0 with no questions and 100 when all were correct |
| LegacyRounding.Page.ClickCheck | src/assets/js/rounding.js:30-35 | Check swaps the buttons and gives the `Responded` state of checking the box against the unchanged number (boxes, digit count and answer kept) |
| LegacyRounding.Page.ClickNext | src/assets/js/rounding.js:37-48 | Next poses the number whose digit count `pick` selects from `EffectiveDigits` of the boxes and which `draw` gives, clears the box, feedback and line, and keeps the counters |
| LegacyRounding.Page.PressEnter | src/assets/js/rounding.js:55-67 | while Check is shown, Enter keeps the boxes and the number and gives exactly the `Responded` state of checking the box, then swaps to Next; while Next is shown it poses the number `pick` and `draw` select, with the boxes all ticked if none was, and clears the page, keeping the counters |
| LegacyRounding.LegacyRoundedIsNotNegative | src/assets/js/rounding.js:106-116 | the earlier answer to a drawn number is never negative |
| LegacyRounding.WholeNumberExpected | src/assets/js/rounding.js:118-132 | the earlier page takes `3500` for 3456 and rejects `35` |
| LegacyRounding.AnswerIsEnterable | src/assets/js/rounding.js:119-132 | typing the rounded number's own digits is always marked correct |
| NumberLineRules.IntegerTarget | src/assets/js/framework/NumberLinesGame.js:171 | `Math.floor(min + r * (range + 1))` is a whole number strictly between `min - 1` and `max + 1` |
| NumberLineRules.DecimalTarget | src/assets/js/framework/NumberLinesGame.js:168 | `min + r * range` lies in `[min, max)` |
| NumberLineRules.IntegerTargetInRange | src/assets/js/framework/NumberLinesGame.js:165-173 | with whole-number bounds the whole-number target lies in `[min, max]` |
| NumberLineRules.IntegerTargetEnds | src/assets/js/framework/NumberLinesGame.js:171 | with whole-number bounds both ends are drawn: a draw of 0 gives `min`, and a draw below 1 gives `max` |
| NumberLineRules.FractionalMinEscapes | src/assets/js/framework/NumberLinesGame.js:70-171 | with a fractional minimum (0.5 to 10) the whole-number target can fall below it (0) |
| NumberLineRules.CorrectFraction | src/assets/js/framework/NumberLinesGame.js:135 | where the target sits along the line, as a fraction of its length |
| NumberLineRules.CorrectFractionBounds | src/assets/js/framework/NumberLinesGame.js:135 | a target inside the range sits in [0, 1] of the line, 0 at `min` and 1 at `max` |
| NumberLineRules.Abs | src/assets/js/framework/NumberLinesGame.js:143 | `Math.abs(x)` is `x` or `-x` and never negative |
| NumberLineRules.PercentageError | src/assets/js/framework/NumberLinesGame.js:135-143 | the error is never negative and is 0 for a click on the target's spot |
| NumberLineRules.ErrorIsDistanceOfValues | src/assets/js/framework/NumberLinesGame.js:128-143 | the error equals the distance between the clicked value and the target, as a percentage of the range |
| NumberLineRules.ZeroErrorOnlyOnTarget | src/assets/js/framework/NumberLinesGame.js:135-143 | an error of 0 only comes from a click exactly on the target's spot |
| NumberLineRules.Rate | src/assets/js/framework/NumberLinesGame.js:225-236 | three stars iff the error is at most 10, two iff in (10, 20], one iff in (20, 30], none beyond 30 |
| NumberLineRules.RateMonotone | src/assets/js/framework/NumberLinesGame.js:225-236 | a smaller error never earns fewer stars |
| NumberLineRules.MessagePerStars | src/assets/js/framework/NumberLinesGame.js:225-236 | two ratings have the same message iff they have the same star count |
| NumberLineRules.BandExponent | src/assets/js/framework/NumberLinesGame.js:264-279 | the order of magnitude of the drawn magnitude is 3, 4 or 5 |
| NumberLineRules.RoundNumber | src/assets/js/framework/NumberLinesGame.js:273-282 | a round number with one or two significant digits lies in `[10^e, 10^(e+1))` |
| NumberLineRules.RandomRange | src/assets/js/framework/NumberLinesGame.js:259-327 | `randomizeRange`: the large or the small range by the large-numbers box; never empty by `RandomRangeNonEmpty` |
| NumberLineRules.LargeRange | src/assets/js/framework/NumberLinesGame.js:262-297 | the large-mode range drawn from a magnitude; its shape is `LargeRangeShape` |
| NumberLineRules.SmallRange | src/assets/js/framework/NumberLinesGame.js:299-318 | the small-mode range of 1 to 9 tens or hundreds; its shape is `SmallRangeShape` |
| NumberLineRules.LargeDefaultRange | src/assets/js/framework/NumberLinesGame.js:329-362 | `setLargeNumbersRange`; its shape is `LargeDefaultRangeShape` |
| NumberLineRules.RandomRangeNonEmpty | src/assets/js/framework/NumberLinesGame.js:259-327 | every range `randomizeRange` sets has its minimum below its maximum |
| NumberLineRules.LargeRangeShape | src/assets/js/framework/NumberLinesGame.js:262-297 | in large mode the size lies within the clamp bounds, the minimum within the magnitude, and the lower clamp never fires |
| NumberLineRules.UpperClampFires | src/assets/js/framework/NumberLinesGame.js:295-296 | a drawn size of 9500 on the 1 000 magnitude is clamped to 9000 |
| NumberLineRules.SmallRangeShape | src/assets/js/framework/NumberLinesGame.js:299-318 | in small mode the size is 1 to 9 units of 10 or 100; two negations leave the minimum positive, and without negatives it is always positive |
| NumberLineRules.LargeDefaultRangeShape | src/assets/js/framework/NumberLinesGame.js:329-362 | `setLargeNumbersRange` gives an unclamped size in `[10^e, 10^(e+1))` and a negative minimum iff the negatives box and the draw say so |
| NumberLineRules.LegacyRandomRange | src/assets/js/numberlines.js:200-211 | the earlier random range has a minimum in [-100, 99] and a size in [20, 199] |
| NumberLinesGame.TitlesOfNumberLines | src/assets/js/framework/NumberLinesGame.js:36-39 | the three titles are returned for indices 0..2 and `'Stat'` for every other index |
| NumberLinesGame.Target | src/assets/js/framework/NumberLinesGame.js:163-174 | a decimal target lies in `[min, max)`; a whole target is whole and strictly within one of the range |
| NumberLinesGame.Game.constructor | src/assets/js/framework/NumberLinesGame.js:4-17 | a new game is of type `numberlines` on the range 0..100, with no guesses and the closest error at 100 |
| NumberLinesGame.Game.SetRandomize | src/assets/js/framework/NumberLinesGame.js:110-113 | ticking or clearing the randomize box changes only that box; the Next button reads it when clicked |
| NumberLinesGame.Game.SetNegatives | src/assets/js/framework/NumberLinesGame.js:92-101 | ticking or clearing the negatives box changes only that box; the range draws and the large-numbers handler read it when they run |
| NumberLinesGame.Game.Init | src/assets/js/framework/NumberLinesGame.js:19-34 | `init` marks the shell initialized, keeps the stats and poses a target on the current range in the current mode, leaving the four option boxes, the range and the running statistics alone |
| NumberLinesGame.Game.GenerateNewProblem | src/assets/js/framework/NumberLinesGame.js:163-174 | the target is `Target` of the mode and range and nothing else changes |
| NumberLinesGame.Game.ChangeMin | src/assets/js/framework/NumberLinesGame.js:69-77 | the minimum becomes the entry, the maximum moves to it plus 10 when it is not above it, and a new target is drawn in the unchanged mode; the option boxes and statistics stay |
| NumberLinesGame.Game.ChangeMax | src/assets/js/framework/NumberLinesGame.js:79-87 | the maximum becomes the entry, the minimum moves to it minus 10 when it is not below it, and a new target is drawn in the unchanged mode; the option boxes and statistics stay |
| NumberLinesGame.Game.SetDecimals | src/assets/js/framework/NumberLinesGame.js:90 | the decimals box changes the mode and draws a new target in it; the range, the other three boxes and the statistics stay |
| NumberLinesGame.Game.SetLargeNumbers | src/assets/js/framework/NumberLinesGame.js:92-104 | ticked, the range is `setLargeNumbersRange`'s; cleared, it is 0..100 or -100..0 with negatives; then a new target; the other three boxes and the statistics stay |
| NumberLinesGame.Game.Click | src/assets/js/framework/NumberLinesGame.js:119-153 | a click after the guess changes nothing; a first click shows the error and its rating and adds it to the guess statistics |
| NumberLinesGame.Game.RecordGuess | src/assets/js/framework/NumberLinesGame.js:147-149 | one more guess, its error added to the total, the closest error lowered to it, keeping closest times guesses at most the total |
| NumberLinesGame.Game.ResetGame | src/assets/js/framework/NumberLinesGame.js:251-257 | the panel goes and the next click counts again |
| NumberLinesGame.Game.Next | src/assets/js/framework/NumberLinesGame.js:110-116 | Next draws a range from the unchanged boxes when randomize is ticked, a new target on it, and resets the click; the boxes and statistics stay |
| NumberLinesGame.Game.RandomizeRange | src/assets/js/framework/NumberLinesGame.js:259-327 | the range becomes `RandomRange` of the modes and draws |
| NumberLinesGame.Game.SetLargeNumbersRange | src/assets/js/framework/NumberLinesGame.js:329-362 | the range becomes `LargeDefaultRange` of the draws |
| NumberLinesGame.Game.Average | src/assets/js/framework/NumberLinesGame.js:157-158 | the Average box shows a mean exactly when there are guesses, and it is never below the closest error |
| NumberLinesGame.Game.Closest | src/assets/js/framework/NumberLinesGame.js:159-160 | the Closest box shows a value iff the closest error is below 100, and it lies in [0, 100) |
| NumberLinesGame.ClosestStaysBelow | src/assets/js/framework/NumberLinesGame.js:147-149 | a new error keeps the closest error times the guess count at most the total |
| NumberLinesGame.AverageAboveClosest | src/assets/js/framework/NumberLinesGame.js:158 | the mean of errors none below the closest is not below it |
| LegacyNumberLines.Page.constructor | src/assets/js/numberlines.js:20-29 | the page starts on the boxes' whole-number range with a target drawn on it, inside it when whole |
| LegacyNumberLines.Page.SetRandomize | src/assets/js/numberlines.js:85-91 | ticking or clearing the randomize box changes only that box; the Next button reads it when clicked |
| LegacyNumberLines.Page.GenerateNewTarget | src/assets/js/numberlines.js:103-114 | the target is the decimal or whole-number draw on the current range |
| LegacyNumberLines.Page.ChangeMin | src/assets/js/numberlines.js:32-41 | the minimum becomes the entry, the maximum moves to it plus 10 when it is not above it, and a new target is drawn in the unchanged mode; both boxes stay |
| LegacyNumberLines.Page.ChangeMax | src/assets/js/numberlines.js:43-52 | the maximum becomes the entry, the minimum moves to it minus 10 when it is not below it, and a new target is drawn in the unchanged mode; both boxes stay |
| LegacyNumberLines.Page.SetDecimals | src/assets/js/numberlines.js:54 | the decimals box changes the mode and draws a new target in it; the range and the randomize box stay |
| LegacyNumberLines.Page.Click | src/assets/js/numberlines.js:56-173 | a click after the guess changes nothing; a first click shows the error and its rating |
| LegacyNumberLines.Page.ResetGame | src/assets/js/numberlines.js:191-198 | the panel goes and the next click counts again |
| LegacyNumberLines.Page.RandomizeRange | src/assets/js/numberlines.js:200-211 | the range becomes `LegacyRandomRange` of the draws |
| LegacyNumberLines.Page.Next | src/assets/js/numberlines.js:85-91 | Next draws a range when the unchanged randomize box is ticked, a new target on it in the unchanged mode (whole targets inside it), and resets the click |
| ModuleManager.FindFrom | src/assets/js/module-manager.js:14 | the index found from `from` holds the id and no earlier one from `from` does; `None` means no module from `from` has it |
| ModuleManager.FindIndex | src/assets/js/module-manager.js:14-67 | `findIndex`: the first module with the id, or `None` exactly when no module has it |
| ModuleManager.Upsert | src/assets/js/module-manager.js:14-22 | the module is in the new list, which is as long as the old one or one longer |
| ModuleManager.Spliced | src/assets/js/module-manager.js:55 | `splice(i, 1)`; its shape is `SplicedShape` |
| ModuleManager.Deleted | src/assets/js/module-manager.js:51-58 | the cache after `deleteModule(index)`: the spliced list saved for an index in range, else only the read |
| ModuleManager.Find | src/assets/js/module-manager.js:43 | `find(...) \|\| null`: a module with the id is returned iff the list has one |
| ModuleManager.AllModules | src/assets/js/module-manager.js:32-34 | `loadAllModules` gives the empty list when nothing is stored |
| ModuleManager.LoadAllModules | src/assets/js/module-manager.js:32-34 | the list read is `AllModules` of the cache, and the cache is left as the read leaves it |
| ModuleManager.SaveModule | src/assets/js/module-manager.js:10-26 | the stored list becomes the loaded list with the module put in, without a TTL |
| ModuleManager.LoadModule | src/assets/js/module-manager.js:41-44 | the result is the first stored module with the id, or `None` |
| ModuleManager.DeleteModule | src/assets/js/module-manager.js:51-58 | an index inside the list removes that module and saves the rest; any other index writes nothing |
| ModuleManager.DeleteModuleById | src/assets/js/module-manager.js:65-72 | the first module with the id is removed and the rest saved; with no such module nothing is written |
| ModuleManager.PutAfterRead | src/assets/js/module-manager.js:11-25 | the read before a save cannot matter: the save replaces the key |
| ModuleManager.UpsertAppends | src/assets/js/module-manager.js:19-22 | a module with a new id is pushed at the end |
| ModuleManager.UpsertReplaces | src/assets/js/module-manager.js:16-18 | a module with a known id replaces the first module with it and leaves every other position as it was |
| ModuleManager.FirstMatchIsUnique | src/assets/js/module-manager.js:14 | `findIndex` returns exactly the first matching position |
| ModuleManager.SavedIsFound | src/assets/js/module-manager.js:10-43 | after saving a module, looking its id up finds that module |
| ModuleManager.UpsertKeepsOthers | src/assets/js/module-manager.js:16-22 | saving never changes a module with another id |
| ModuleManager.UpsertIdempotent | src/assets/js/module-manager.js:10-26 | saving the same module twice stores the same list as saving it once |
| ModuleManager.UpsertKeepsIdsUnique | src/assets/js/module-manager.js:10-26 | saving keeps the ids of the list distinct |
| ModuleManager.SplicedShape | src/assets/js/module-manager.js:55 | `splice(i, 1)` keeps the modules before `i` and shifts the ones after it down by one |
| ModuleManager.DeleteByIdRemovesIt | src/assets/js/module-manager.js:65-72 | with distinct ids, deleting by id leaves no module with that id, and exactly that one module is gone |
| ModuleManager.NothingStoredIsEmpty | src/assets/js/module-manager.js:33 | a missing, empty or malformed record loads as the empty list |
| ModuleManager.LoadAfterSave | src/assets/js/module-manager.js:10-44 | a saved module is found by its id at any later time |
| MathProblems.EvaluateQuestion | src/assets/js/mathProblems.js:5-32 | the question text of two operands reads back as the operator applied to them |
| MathProblems.Question | src/assets/js/mathProblems.js:5 | `${num1} <op> ${num2}`: read back by `EvaluateQuestion` |
| MathProblems.Evaluate | src/assets/js/mathProblems.js:5-32 | reads `<digits> <op> <digits>` back and works it out, `None` for any other text |
| MathProblems.Addition | src/assets/js/mathProblems.js:1-8 | two draws below 10 and their sum; stated by `AdditionProblem` |
| MathProblems.Subtraction | src/assets/js/mathProblems.js:10-17 | two draws below 10 and their difference; stated by `SubtractionProblem` |
| MathProblems.Multiplication | src/assets/js/mathProblems.js:19-26 | two draws below 10 and their product; stated by `MultiplicationProblem` |
| MathProblems.Division | src/assets/js/mathProblems.js:28-35 | a divisor in [1, 9] times a drawn quotient; stated by `DivisionProblem` |
| MathProblems.AdditionProblem | src/assets/js/mathProblems.js:1-8 | the sum lies in [0, 18] and the question reads back as it |
| MathProblems.SubtractionProblem | src/assets/js/mathProblems.js:10-17 | the difference lies in [-9, 9], is negative iff the second operand is larger, and the question reads back as it |
| MathProblems.MultiplicationProblem | src/assets/js/mathProblems.js:19-26 | the product lies in [0, 81] and the question reads back as it |
| MathProblems.DivisionProblem | src/assets/js/mathProblems.js:28-35 | the divisor lies in [1, 9], the division is exact, the quotient lies in [0, 9], and the question reads back as it |
| MathProblems.ExactQuotient | src/assets/js/mathProblems.js:30-33 | `num2 * q` divided by `num2` is exactly `q`, in whole numbers and in exact real division |
| ModuleGenerator.Captured | src/assets/js/module-generator.js:11-12 | the lazy capture between a fence and the next one has no white space at either end |
| ModuleGenerator.JsonContent | src/assets/js/module-generator.js:11-15 | a `json` block first, then a plain block, then the whole answer, an empty capture also giving the whole answer; stated by `FencedJsonRoundTrip`, `FencedPlainRoundTrip`, `JsonBlockWins`, `NoFenceIsWhole` and `EmptyJsonBlockFallsBack` |
| ModuleGenerator.CreateModule | src/assets/js/module-generator.js:8-31 | `FromParsed` of the parse of `JsonContent`; the verdict it keeps is `CreationKeepsVerdict` |
| ModuleGenerator.FromParsed | src/assets/js/module-generator.js:18-29 | a failed parse, `null` or a primitive is the one fixed error; an object gets the generated `id`, `originalDescription` copied from `description`, and every other field unchanged; an array is returned as parsed |
| ModuleGenerator.ValidateModule | src/assets/js/module-generator.js:38-64 | the two loops with their early returns compute `Verdict`: `false` at the first falsy field or problem, `None` where reading a field of `null` throws |
| Json.Truthy | src/assets/js/module-generator.js:43 | JavaScript's truthiness of a property read: undefined, null, false, 0 and "" are falsy; every array and object, even an empty one, is truthy |
| ModuleGenerator.Verdict | src/assets/js/module-generator.js:38-64 | `None` for `null` (the read throws), `false` for a missing field or a bad problem, else `true`; characterized by `ValidIff` |
| ModuleGenerator.ProblemsPass | src/assets/js/module-generator.js:56-61 | the problem loop passes iff every problem is not `null` and has a truthy question and answer |
| ModuleGenerator.ValidIff | src/assets/js/module-generator.js:38-64 | a module is valid iff it is not `null`, every required field is truthy, the problems form a non-empty array and every problem has a truthy question and answer |
| ModuleGenerator.MissingFieldInvalid | src/assets/js/module-generator.js:40-47 | a missing or falsy required field makes the module invalid, whatever else it holds |
| ModuleGenerator.CreationKeepsVerdict | src/assets/js/module-generator.js:21-64 | the fields creation adds are not read by validation, so a created module is valid iff the parsed object is |
| ModuleGenerator.NoFenceIsWhole | src/assets/js/module-generator.js:11-15 | a response without any backtick is parsed whole |
| ModuleGenerator.NoBacktickNoOccurrence | src/assets/js/module-generator.js:11-12 | a fence cannot be found in a text without backticks |
| ModuleGenerator.FencedJsonRoundTrip | src/assets/js/module-generator.js:11-15 | a trimmed, backtick-free JSON text fenced in a `json` block after backtick-free prose is extracted exactly |
| ModuleGenerator.FirstOccurrence | src/assets/js/module-generator.js:11-12 | a fence found after a stretch free of backticks is the first one from the start of that stretch |
| ModuleGenerator.TrimAround | src/assets/js/module-generator.js:11 | the `\s*` on both sides of the group takes away the line breaks around a trimmed text |
| ModuleGenerator.EmptyJsonBlockFallsBack | src/assets/js/module-generator.js:11-15 | an empty `json` block makes the whole response the content, without trying a plain block |
| ModuleGenerator.FencedPlainRoundTrip | src/assets/js/module-generator.js:11-15 | with no `json` block anywhere, a trimmed, backtick-free text fenced in a plain block after backtick-free prose is extracted exactly |
| ModuleGenerator.JsonBlockWins | src/assets/js/module-generator.js:11-15 | a `json` block is extracted even when a plain block comes before it |
| Lesson.ShowInt | src/assets/js/custom-module.js:209 | the text of a whole number is never empty |
| Lesson.AnswerText | src/assets/js/custom-module.js:209 | `answer.toString()` of a text, a whole number or a boolean |
| Lesson.AnswerNumber | src/assets/js/custom-module.js:214 | `Number(answer)`, `None` for NaN |
| Lesson.IsAnswerCorrect | src/assets/js/custom-module.js:207-220 | the answer's own text always matches; any other match is the same `parseFloat` value or the same text after `toLowerCase` |
| Lesson.ReadShowInt | src/assets/js/custom-module.js:209-215 | `parseFloat` and `Number()` read the text of a whole number back as that number |
| Lesson.ReadShowNat | src/assets/js/custom-module.js:215 | the same for a non-negative number |
| Lesson.ReadShowNegative | src/assets/js/custom-module.js:215 | the same for a negative number |
| Lesson.WholeAnswerMatchesByValue | src/assets/js/custom-module.js:207-216 | for numeric input a whole answer matches iff the text is the answer's own or `parseFloat` reads the answer's value |
| Lesson.NumericMatch | src/assets/js/custom-module.js:207-216 | with both sides numeric, an answer matches iff the text is the answer's own or `parseFloat` gives the same value |
| Lesson.NonNumericInputIgnoresCase | src/assets/js/custom-module.js:214-219 | input that is no number matches iff it equals the answer's text ignoring case |
| Lesson.WordAnswerIgnoresCase | src/assets/js/custom-module.js:214-219 | a text answer that is no number is matched without regard to case |
| Lesson.WholeMatchesPointZero | src/assets/js/custom-module.js:214-215 | `5.0` is accepted for the whole answer 5 |
| Lesson.ReadPointZero | src/assets/js/custom-module.js:215 | the text of `n` followed by `.0` reads as `n` |
| Lesson.HexInputNeverMatches | src/assets/js/custom-module.js:214-215 | a hexadecimal entry counts as a number but reads as 0, so it never matches a non-zero whole answer, not even its own value |
| CustomModule.ProgressPercent | src/assets/js/custom-module.js:229 | the bar's percentage is undefined exactly for a module without problems and lies in [0, 100] up to the last problem |
| CustomModule.ShownStats | src/assets/js/custom-module.js:233-239 | the panel shows both counters and an accuracy in [0, 100], 0 with nothing answered and 100 when all were correct |
| CustomModule.Displayed | src/assets/js/custom-module.js:94-128 | `displayProblem`: nothing without problems; past the last problem only the completion panel; otherwise an empty box, blank feedback, no explanation, Check instead of Next and the progress line |
| CustomModule.Recorded | src/assets/js/custom-module.js:184-204 | one more answered problem, one more correct iff it was correct, the verdict, the explanation if the problem has one, Next instead of Check, and fresh stats |
| CustomModule.Judged | src/assets/js/custom-module.js:170-204 | past the last problem the page is unchanged (the read of the missing problem throws); otherwise `Recorded` with the verdict of `isAnswerCorrect` |
| CustomModule.AfterCheck | src/assets/js/custom-module.js:167-205 | no problems: unchanged; a blank answer: only the request for an answer; otherwise `Judged` |
| CustomModule.Advanced | src/assets/js/custom-module.js:135-138 | the index one up, then `Displayed` |
| CustomModule.Entered | src/assets/js/custom-module.js:141-149 | Check while it is shown, else Next while it is shown, else nothing |
| CustomModule.Restarted | src/assets/js/custom-module.js:152-159 | index and counters at zero, completion panel hidden, zero stats, then `Displayed` |
| CustomModule.DisplayIsIdempotent | src/assets/js/custom-module.js:94-128 | showing the problem twice shows the same page as once |
| CustomModule.AdvanceShowsNext | src/assets/js/custom-module.js:94-138 | Next keeps the counters and shows the following problem with an empty box, blank feedback, no explanation, Check shown and the progress moved on, or after the last problem only the completion panel |
| CustomModule.BlankAnswerNotCounted | src/assets/js/custom-module.js:171-178 | a box of only white space changes nothing but the request for an answer |
| CustomModule.CheckedOnceThenNext | src/assets/js/custom-module.js:141-204 | checking a non-blank answer on screen counts it once and swaps Check for Next, so the next Enter moves on and counts nothing |
| CustomModule.RestartShowsFirst | src/assets/js/custom-module.js:152-159 | restart on a module with problems shows the first problem with counters and stats at zero, an empty box, Check shown and the progress at `0/n` |
| CustomModule.RoundHalfUpPercent | src/assets/js/custom-module.js:237 | `Math.round(correct / answered * 100)` is the same accuracy as the game shell's |
| CustomModule.Page.constructor | src/assets/js/custom-module.js:24-27 | the page starts with no module, all counters at zero, an empty box, blank feedback, both buttons shown, no panels, no progress line and zero stats |
| CustomModule.Page.Load | src/assets/js/custom-module.js:62-92 | the module is the saved one with the address's id if any, else the active one; each lookup leaves its cache as the read does (an expired entry evicted); the error panel shows iff neither exists, the progress line is set, and the rest of the page is kept |
| CustomModule.Page.UpdateProgress | src/assets/js/custom-module.js:222-231 | with problems the progress line shows `index/total`; without, the page is unchanged |
| CustomModule.Page.UpdateStats | src/assets/js/custom-module.js:233-239 | the stats panel shows `ShownStats` of the counters and the rest of the page is unchanged |
| CustomModule.Page.DisplayProblem | src/assets/js/custom-module.js:94-128 | the whole page becomes `Displayed` of the page before |
| CustomModule.Page.CheckAnswer | src/assets/js/custom-module.js:167-205 | the whole page becomes `AfterCheck` of the page before and the trimmed box |
| CustomModule.Page.CheckTrimmed | src/assets/js/custom-module.js:168-178 | the whole page becomes `AfterCheck` of the page before and the answer |
| CustomModule.Page.Judge | src/assets/js/custom-module.js:170-204 | the whole page becomes `Judged` of the page before and the answer |
| CustomModule.Page.Record | src/assets/js/custom-module.js:184-204 | the whole page becomes `Recorded` of the page before |
| CustomModule.Page.ClickNext | src/assets/js/custom-module.js:135-138 | the whole page becomes `Advanced` of the page before: one problem on, then `displayProblem` |
| CustomModule.Page.PressEnter | src/assets/js/custom-module.js:141-149 | the whole page becomes `Entered` of the page before: the check of the trimmed box while Check is up, else Next while Next is up, else nothing |
| CustomModule.Page.Restart | src/assets/js/custom-module.js:152-159 | the whole page becomes `Restarted` of the page before: index and counters at zero, zero stats, completion panel hidden, then `displayProblem` |
| CustomModule.BlankAnswerIsAllSpace | src/assets/js/custom-module.js:171-178 | the trimmed answer is blank iff the box holds only white space |
| JsText.IsSpace | src/assets/js/module-generator.js:11-12 | the ECMAScript white-space and line-terminator set that both `trim()` and the regular expressions' `\s` use: tab to carriage return, space, no-break space, U+1680, U+2000 to U+200A, U+2028, U+2029, U+202F, U+205F, U+3000 and U+FEFF |
| JsText.Trim | src/assets/js/framework/RoundingGame.js:173 | `trim()` never lengthens the text and leaves no white space at either end |
| JsText.TrimOfTrimmed | src/assets/js/custom-module.js:171 | trimming a text without white space at its ends changes nothing |
| JsText.ToLower | src/assets/js/custom-module.js:219 | lowers the letters A to Z and keeps every other character, so the length is kept |
| JsText.IndexOf | src/assets/js/module-generator.js:11-12 | the first occurrence of a pattern from a position, or `None` when there is none |
| JsNumber.RoundHalfUp | src/assets/js/framework/BaseGame.js:105 | `Math.round(x)` is the integer within half of `x`, halves going up |
| JsNumber.RandomBelow | src/assets/js/framework/RoundingGame.js:111 | `Math.floor(Math.random() * n)` is below `n` |
| JsNumber.ShowNat | src/assets/js/mathProblems.js:5 | the decimal text of a natural number; read back by `ParseIntShowNat` |
| JsNumber.ParseInt | src/assets/js/framework/RoundingGame.js:176-182 | `parseInt(s)`: optional sign and the longest digit run after leading white space, `None` for NaN |
| JsNumber.ParseFloat | src/assets/js/custom-module.js:215 | `parseFloat(s)`: the longest decimal literal after leading white space, `None` for NaN |
| JsNumber.ToNumber | src/assets/js/custom-module.js:214 | `Number(s)`: one literal with white space around it, 0 for a blank text, `None` for NaN |
| JsNumber.ParseIntShowNat | src/assets/js/framework/RoundingGame.js:182 | `parseInt` reads the text of every non-negative integer back |
| JsNumber.ParseFloatOfHex | src/assets/js/custom-module.js:215 | `parseFloat` reads a hexadecimal literal as 0 |
| JsNumber.ToNumberOfHex | src/assets/js/custom-module.js:214 | `Number()` reads a hexadecimal literal as its value |
| JsNumber.DecimalLiteralAgree | src/assets/js/custom-module.js:214-215 | for a text that is exactly one decimal literal, `Number()` and `parseFloat` agree |
| Json.Get | src/assets/js/module-generator.js:43 | reading a property gives a value iff the value is an object holding that field |

## Left out

- Rendering is not modelled: `innerHTML`/`textContent`, styles, `focus`, tick marks, animations with `setTimeout`, and `toLocaleString`/`toFixed` formatting. The model keeps only what a handler reads back or what decides a later step, such as button visibility, the feedback line and the stats panel.
- `getBoundingClientRect` is not modelled: a click arrives as the fraction `p` of the line's width.
- The hint system of the module page (`addHintSystem`) and the text of its error panel are not modelled. They are DOM construction only.
- After a completed module, Restart does not show `module-container` again. The model keeps no field for that container, so this is not captured.
- `openai-client.js`, `ai-sandbox.js`, `app.js`, `uiController.js`, `framework/game-loader.js`, `ShowOneChild.js` and the React files `RoundingGame.jsx` and `GameStats.jsx` are not part of this model. They are network calls, page wiring and rendering.
- `Math.random()`, `Date.now()` and `generateUniqueId` are parameters, and `JSON.parse` of an AI answer is a function parameter. `JSON.stringify` and `JSON.parse` inside the cache are abstract: a stored record is empty, malformed or an entry.
- Numbers are exact `real` and unbounded `int`, not IEEE-754 doubles. Rounding error in `0.1 * max`, `0.8 * min` or the percentages is not modelled. `Math.log10` of the three magnitudes is their known exponent 3, 4 or 5.
- `NaN` ranges are not modelled: the change handlers of the range boxes take a number, so an empty or non-numeric entry is out of scope.
- A stored answer of a module is a string, a whole number or a boolean. Fractional numbers, `null`, arrays, objects and whole numbers whose text uses exponent notation (from 10^21) are not modelled.
- The module manager works on typed modules and the generator on JSON values. The dynamic typing that lets any parsed object be saved as a module is not modelled.
- Each module-manager operation reads the cache at one time `now`. The `async` functions are sequential: each call completes before the next.
- The TTL cache ignores write failures of `localStorage` such as a full quota. `setItem` always succeeds in the model.
- JsText.ToLower: lowers only the letters A to Z. JavaScript's `toLowerCase` follows the full Unicode case mapping: it lowers letters such as `Ä`, can change the length (`İ` becomes two code units) and lowers a final sigma by its context. A text answer that differs from the typed one only in non-ASCII case therefore matches in the source but not in the model (`Lesson.IsAnswerCorrect`).
- JsNumber.ParseFloat: reads decimal literals as exact reals. The `Infinity` spelling, with an optional sign, gives `None` (NaN) in the model, so `Infinity` against `+Infinity` is a match in the source but not in the model. A literal too large for a double, such as `1e400`, keeps its exact finite value in the model, while JavaScript reads it as `Infinity`; so `1e400` against `1e401` is a match in the source but not in the model. No rounding to the nearest double is modelled either. Strings are taken as sequences of characters, not of UTF-16 code units.
- JsNumber.ToNumber: like `ParseFloat`, gives `None` for the `Infinity` spelling and keeps an overflowing literal's exact finite value where JavaScript gives `Infinity`, and treats a string as a sequence of characters rather than UTF-16 code units.
- Lesson.WholeMatchesPointZero: proved for non-negative whole answers only. A negative answer such as `-5` also matches `-5.0` in the source, but the model does not prove it.
- ModuleGenerator.FromParsed: a parsed array is returned unchanged, because a JSON value cannot hold the `id` and `originalDescription` properties the source adds to it.
- LegacyNumberLines.Page.constructor: requires `min < max`. The page starts from `parseInt` of the two range boxes, whose values come from the HTML page, which is not part of this model.
- CustomModule.Page.Load: requires a page with no module yet. `loadModuleData` runs once, right after the page's module variable is set to `null`.
