/** The learning modules the AI sandbox creates, stores and plays
    (src/assets/js/module-manager.js, src/assets/js/custom-module.js), and
    `isAnswerCorrect`, the rule that decides whether a typed answer matches
    a problem's stored answer. */
module Lesson {

  import opened Wrappers
  import opened JsText
  import opened JsNumber

  /** A stored answer as `JSON.parse` gives it: a string, a whole number or
      a boolean. */
  datatype Answer = Text(s: string) | Whole(n: int) | Flag(b: bool)

  /** One problem; an empty `explanation` is a missing one. */
  datatype Problem = Problem(question: string, answer: Answer, explanation: string)

  /** A module as the manager keeps it and the module page plays it;
      `problems` is `None` when the module has none. */
  datatype Module = Module(id: string, title: string, instructions: string, problems: Option<seq<Problem>>)

  /** JavaScript's text of a whole number (below 10^21). */
  function ShowInt(n: int): (s: string)
    ensures |s| >= 1
  {
    if n >= 0 then ShowNat(n) else "-" + ShowNat(-n)
  }

  /** `answer.toString()`. */
  function AnswerText(a: Answer): string
  {
    match a
    case Text(s) => s
    case Whole(n) => ShowInt(n)
    case Flag(b) => if b then "true" else "false"
  }

  /** `Number(answer)`, the conversion `isNaN` applies; `None` is NaN. */
  function AnswerNumber(a: Answer): Option<real>
  {
    match a
    case Text(s) => ToNumber(s)
    case Whole(n) => Some(n as real)
    case Flag(b) => Some(if b then 1.0 else 0.0)
  }

  /** `isAnswerCorrect(correctAnswer, userAnswer)`: the exact text first;
      when both sides are numbers, `parseFloat` of each must give the same
      number (`NaN` matches nothing); otherwise the texts compared without
      case. */
  function IsAnswerCorrect(correct: Answer, user: string): (ok: bool)
    ensures user == AnswerText(correct) ==> ok
    ensures ok && user != AnswerText(correct) ==>
      || (ParseFloat(user).Some? && ParseFloat(user) == ParseFloat(AnswerText(correct)))
      || ToLower(user) == ToLower(AnswerText(correct))
  {
    var text := AnswerText(correct);
    if user == text then true
    else if AnswerNumber(correct).Some? && ToNumber(user).Some? then
      ParseFloat(user).Some? && ParseFloat(user) == ParseFloat(text)
    else ToLower(user) == ToLower(text)
  }

  /** The text of a whole number reads back as that number, by
      `parseFloat` and by `Number()` alike. */
  lemma ReadShowInt(n: int)
    ensures ParseFloat(ShowInt(n)) == Some(n as real)
    ensures ToNumber(ShowInt(n)) == Some(n as real)
  {
    if n >= 0 {
      ReadShowNat(n);
      assert ShowInt(n) == ShowNat(n);
    } else {
      ReadShowNegative(n);
    }
  }

  lemma ReadShowNegative(n: int)
    requires n < 0
    ensures ParseFloat(ShowInt(n)) == Some(n as real) && ToNumber(ShowInt(n)) == Some(n as real)
  {
    var d := ShowNat(-n);
    assert ShowInt(n) == "-" + d;
    ScanShowNat(-n);
    assert (-n) as real == -(n as real);
    ReadNegated(d, -(n as real));
  }

  lemma ReadShowNat(m: nat)
    ensures ParseFloat(ShowNat(m)) == Some(m as real) && ToNumber(ShowNat(m)) == Some(m as real)
  {
    ScanShowNat(m);
    ReadUnsigned(ShowNat(m), m as real);
  }

  /** The text of a whole number scans as an unsigned literal of that value. */
  lemma ScanShowNat(m: nat)
    ensures var d := ShowNat(m);
      && |d| >= 1 && DigitValue(d[0]) < 10 && DigitValue(d[|d| - 1]) < 10
      && ScanUnsigned(d) == Some(Scan(m as real, |d|))
  {
    ShowNatDigits(m);
    ScanDigits(ShowNat(m));
  }

  /** A whole-number answer is matched by its own text and by every
      numeric text `parseFloat` reads as the same number. */
  lemma WholeAnswerMatchesByValue(n: int, user: string)
    requires ToNumber(user).Some?
    ensures IsAnswerCorrect(Whole(n), user) <==> user == ShowInt(n) || ParseFloat(user) == Some(n as real)
  {
    assert ParseFloat(AnswerText(Whole(n))) == Some(n as real) by {
      ReadShowInt(n);
    }
    NumericMatch(Whole(n), user, n as real);
  }

  /** Between two numbers that differ as text, only `parseFloat` decides. */
  lemma NumericMatch(correct: Answer, user: string, v: real)
    requires AnswerNumber(correct).Some? && ToNumber(user).Some?
    requires ParseFloat(AnswerText(correct)) == Some(v)
    ensures IsAnswerCorrect(correct, user) <==> user == AnswerText(correct) || ParseFloat(user) == Some(v)
  {
  }

  /** When the typed text is not a number, only its lower-case form
      counts. */
  lemma NonNumericInputIgnoresCase(correct: Answer, user: string)
    requires ToNumber(user).None?
    ensures IsAnswerCorrect(correct, user) <==> ToLower(user) == ToLower(AnswerText(correct))
  {
  }

  /** A text answer that is no number is matched without regard to case. */
  lemma WordAnswerIgnoresCase(s: string, user: string)
    requires ToNumber(s).None?
    ensures IsAnswerCorrect(Text(s), user) <==> ToLower(user) == ToLower(s)
  {
  }

  /** Writing a non-negative whole answer with a point and a zero ("5.0"
      for 5) is accepted. */
  lemma WholeMatchesPointZero(n: nat)
    ensures IsAnswerCorrect(Whole(n), ShowNat(n) + ".0")
  {
    ReadPointZero(n);
    WholeAnswerMatchesByValue(n, ShowNat(n) + ".0");
  }

  /** The text of `n` followed by ".0" reads as `n`. */
  lemma ReadPointZero(n: nat)
    ensures ParseFloat(ShowNat(n) + ".0") == Some(n as real)
    ensures ToNumber(ShowNat(n) + ".0") == Some(n as real)
  {
    ScanPointZero(n);
    ReadUnsigned(ShowNat(n) + ".0", n as real);
  }

  /** The unsigned literal `m.0` spans its text and has the value `m`. */
  lemma ScanPointZero(m: nat)
    ensures var a := ShowNat(m) + ".0";
      |a| >= 1 && DigitValue(a[0]) < 10 && DigitValue(a[|a| - 1]) < 10
      && ScanUnsigned(a) == Some(Scan(m as real, |a|))
  {
    var d := ShowNat(m);
    var a := d + ".0";
    ShowNatDigits(m);
    assert d + "." + "0" == a;
    ScanPointFraction(d, "0");
    PointZeroValue(d);
    assert a[0] == d[0] && a[|a| - 1] == '0';
  }

  lemma PointZeroValue(d: string)
    ensures MantissaValue(d, "0") == RadixValue(d, 10) as real
  {
    assert RadixValue("0", 10) == 0 by {
      assert "0"[..0] == "";
    }
    assert Pow10(1) == 10;
  }

  /** `Number()` accepts a hexadecimal text as a number but `parseFloat`
      reads it as 0, so no such text matches a whole answer other than 0,
      not even the one with the answer's own value ("0x10" for 16). */
  lemma HexInputNeverMatches(n: int, body: string)
    requires n != 0 && |body| >= 1 && AllDigits(body, 16)
    ensures ToNumber("0x" + body).Some?
    ensures !IsAnswerCorrect(Whole(n), "0x" + body)
  {
    var user := "0x" + body;
    ToNumberOfHex(body);
    ParseFloatOfHex(body);
    WholeAnswerMatchesByValue(n, user);
    if user == ShowInt(n) {
      ReadShowInt(n);
      assert false;
    }
  }
}
