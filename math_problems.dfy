/** The four arithmetic problem generators (src/assets/js/mathProblems.js).
    Each `Math.random()` draw is a parameter in [0, 1); an operand is
    `Math.floor(r * 10)`. A problem's question is the two operands around
    the operator symbol, and its answer is what the question says. */
module MathProblems {

  import opened Wrappers
  import opened JsNumber

  datatype MathProblem = MathProblem(question: string, answer: int)

  predicate IsDraw(r: real)
  {
    0.0 <= r < 1.0
  }

  /** `${a} <op> ${b}`. */
  function Question(a: nat, op: char, b: nat): string
  {
    ShowNat(a) + [' ', op, ' '] + ShowNat(b)
  }

  function Addition(r1: real, r2: real): MathProblem
    requires IsDraw(r1) && IsDraw(r2)
  {
    var a := RandomBelow(r1, 10);
    var b := RandomBelow(r2, 10);
    MathProblem(Question(a, '+', b), a + b)
  }

  function Subtraction(r1: real, r2: real): MathProblem
    requires IsDraw(r1) && IsDraw(r2)
  {
    var a := RandomBelow(r1, 10);
    var b := RandomBelow(r2, 10);
    MathProblem(Question(a, '-', b), a - b)
  }

  function Multiplication(r1: real, r2: real): MathProblem
    requires IsDraw(r1) && IsDraw(r2)
  {
    var a := RandomBelow(r1, 10);
    var b := RandomBelow(r2, 10);
    MathProblem(Question(a, '*', b), a * b)
  }

  /** The divisor is drawn first from [1, 9]; the dividend is the divisor
      times a second draw from [0, 9], so the quotient is that draw. */
  function Division(r1: real, r2: real): MathProblem
    requires IsDraw(r1) && IsDraw(r2)
  {
    var divisor := RandomBelow(r1, 9) + 1;
    var quotient := RandomBelow(r2, 10);
    var dividend := divisor * quotient;
    MathProblem(Question(dividend, '/', divisor), quotient)
  }

  // ---------------------------------------------------------------------
  // Reading a question back

  /** The value of `a <op> b` for whole `a` and `b`; `None` for an unknown
      operator or a division that does not come out whole. */
  function Apply(op: char, a: nat, b: nat): Option<int>
  {
    match op
    case '+' => Some(a + b)
    case '-' => Some(a - b)
    case '*' => Some(a * b)
    case '/' => if b != 0 && a % b == 0 then Some(a / b) else None
    case _ => None
  }

  /** Reads a question of the form `<digits> <op> <digits>` and works it
      out; `None` for any other text. */
  function Evaluate(q: string): Option<int>
  {
    var i := DigitRun(q, 10);
    var rest := q[i..];
    if i == 0 || |rest| < 4 || rest[0] != ' ' || rest[2] != ' ' then None
    else
      var right := rest[3..];
      if DigitRun(right, 10) != |right| then None
      else Apply(rest[1], RadixValue(q[..i], 10), RadixValue(right, 10))
  }

  /** The question text of any two operands reads back as the operator
      applied to them. */
  lemma EvaluateQuestion(a: nat, op: char, b: nat)
    ensures Evaluate(Question(a, op, b)) == Apply(op, a, b)
  {
    var left, right := ShowNat(a), ShowNat(b);
    ShowNatDigits(a);
    ShowNatDigits(b);
    var q := Question(a, op, b);
    var rest := [' ', op, ' '] + right;
    assert q == left + rest;
    DigitRunStops(left, rest, 10);
    assert q[|left|..] == rest && q[..|left|] == left;
    assert rest[3..] == right;
    DigitRunOfDigits(right, 10);
  }

  // ---------------------------------------------------------------------
  // What each generator promises

  /** Both addends lie in [0, 9], the answer is their sum, and the question
      says so. */
  lemma AdditionProblem(r1: real, r2: real)
    requires IsDraw(r1) && IsDraw(r2)
    ensures var p := Addition(r1, r2);
      && 0 <= p.answer <= 18
      && Evaluate(p.question) == Some(p.answer)
  {
    EvaluateQuestion(RandomBelow(r1, 10), '+', RandomBelow(r2, 10));
  }

  /** The difference lies in [-9, 9], negative when the second operand is
      the larger, and the question says so. */
  lemma SubtractionProblem(r1: real, r2: real)
    requires IsDraw(r1) && IsDraw(r2)
    ensures var p := Subtraction(r1, r2);
      && -9 <= p.answer <= 9
      && (p.answer < 0 <==> RandomBelow(r1, 10) < RandomBelow(r2, 10))
      && Evaluate(p.question) == Some(p.answer)
  {
    EvaluateQuestion(RandomBelow(r1, 10), '-', RandomBelow(r2, 10));
  }

  /** The product lies in [0, 81], and the question says so. */
  lemma MultiplicationProblem(r1: real, r2: real)
    requires IsDraw(r1) && IsDraw(r2)
    ensures var p := Multiplication(r1, r2);
      && 0 <= p.answer <= 81
      && Evaluate(p.question) == Some(p.answer)
  {
    var a, b := RandomBelow(r1, 10), RandomBelow(r2, 10);
    assert a * b <= 9 * b <= 81;
    EvaluateQuestion(a, '*', b);
  }

  /** The divisor is never zero, the division is exact, so the answer
      `num1 / num2` is a whole number in [0, 9], and the question says so. */
  lemma DivisionProblem(r1: real, r2: real)
    requires IsDraw(r1) && IsDraw(r2)
    ensures var divisor := RandomBelow(r1, 9) + 1;
      var p := Division(r1, r2);
      && 1 <= divisor <= 9
      && 0 <= p.answer <= 9
      && (divisor * p.answer) as real / divisor as real == p.answer as real
      && Evaluate(p.question) == Some(p.answer)
  {
    var divisor := RandomBelow(r1, 9) + 1;
    var quotient := RandomBelow(r2, 10);
    ExactQuotient(divisor, quotient);
    EvaluateQuestion(divisor * quotient, '/', divisor);
  }

  lemma ExactQuotient(divisor: nat, quotient: nat)
    requires divisor > 0
    ensures (divisor * quotient) % divisor == 0 && (divisor * quotient) / divisor == quotient
    ensures (divisor * quotient) as real / divisor as real == quotient as real
  {
    assert (divisor * quotient) as real == divisor as real * quotient as real;
  }
}
