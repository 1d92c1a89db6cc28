/** `games/mathGame.js`: an addition problem from two random draws. The
    draws, values of `Math.random()`, are parameters. */
module MathGame {
  import opened JsNumbers

  datatype Problem = Problem(question: string, answer: int)

  /** `Math.floor(draw * 100)`. */
  function Operand(draw: real): (n: int)
    requires 0.0 <= draw < 1.0
    ensures 0 <= n <= 99
    ensures n as real <= draw * 100.0 < n as real + 1.0
  {
    (draw * 100.0).Floor
  }

  /** The problem text for two operands. */
  function QuestionText(num1: int, num2: int): string {
    "What is " + Show(num1) + " plus " + Show(num2) + "?"
  }

  /** `generateMathProblem()` (exported as `start`) for the draws `d1` and
      `d2`. */
  function GenerateMathProblem(d1: real, d2: real): (p: Problem)
    requires 0.0 <= d1 < 1.0 && 0.0 <= d2 < 1.0
    ensures p.answer == Operand(d1) + Operand(d2)
    ensures 0 <= p.answer <= 198
    ensures p.question == QuestionText(Operand(d1), Operand(d2))
  {
    var num1 := Operand(d1);
    var num2 := Operand(d2);
    Problem(QuestionText(num1, num2), num1 + num2)
  }

  /** Every operand pair is reachable: the draws `n/100` give `n`. */
  lemma EveryOperandDrawn(n: nat)
    requires n <= 99
    ensures Operand(n as real / 100.0) == n
  {
  }
}
