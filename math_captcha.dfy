/**
 * The arithmetic challenge (`math_captcha`): two operands and an operator
 * are drawn, the expression is rendered, and the reply, read with `atoi`,
 * must equal the value of the expression.
 */
module MathCaptcha {
  import opened Libc
  import opened Pam
  import Figlet

  /** The operators an expression may use. */
  const Ops: string := "+-*"

  /** Operands are `rand() % OperandSpan + OperandBase`. */
  const OperandBase: nat := 100
  const OperandSpan: nat := 1000

  /** The number of `rand()` calls made before the expression is rendered. */
  const DrawsUsed: nat := 3

  /** The expression `x op y` the user is asked to evaluate. */
  datatype Challenge = Challenge(x: int, op: char, y: int)

  /** Operands in [100, 1099] and a known operator. */
  predicate WellFormed(c: Challenge) {
    OperandBase <= c.x < OperandBase + OperandSpan &&
    OperandBase <= c.y < OperandBase + OperandSpan &&
    c.op in Ops
  }

  /** The challenge drawn from the `rand()` calls at `at` (operator), `at + 1`
      (left operand) and `at + 2` (right operand). */
  function Generate(rand: Rand, at: nat): (c: Challenge)
    ensures WellFormed(c)
  {
    var op := Ops[rand(at) % |Ops|];
    var x := rand(at + 1) % OperandSpan + OperandBase;
    var y := rand(at + 2) % OperandSpan + OperandBase;
    Challenge(x, op, y)
  }

  /** Every well-formed challenge is drawn by some `rand()` results, so the
      generator covers the whole range. */
  lemma GenerateReachesAll(c: Challenge)
    requires WellFormed(c)
    ensures Generate(Stream([IndexOf(Ops, c.op), c.x - OperandBase, c.y - OperandBase]), 0) == c
  {
    var k := IndexOf(Ops, c.op);
    assert k < |Ops| && Ops[k] == c.op;
  }

  /** The expected answer: the operator applied to the operands in integer
      arithmetic (0 for an operator outside `Ops`, which is never drawn).
      For a drawn challenge it lies in [-999, 1207801], well inside `int`. */
  function Answer(c: Challenge): (r: int)
    ensures WellFormed(c) ==> -999 <= r <= 1207801
    ensures -0x8000_0000 <= r < 0x8000_0000 || !WellFormed(c)
  {
    match c.op
    case '+' => c.x + c.y
    case '-' => c.x - c.y
    case '*' => MulBound(c.x, c.y); c.x * c.y
    case _ => 0
  }

  lemma MulBound(x: int, y: int)
    ensures 100 <= x <= 1099 && 100 <= y <= 1099 ==> 10000 <= x * y <= 1207801
  {
    if 100 <= x <= 1099 && 100 <= y <= 1099 {
      assert 100 * y <= x * y <= 1099 * y;
    }
  }

  /** The text handed to the renderer: `"%d %c %d"`. */
  function Text(c: Challenge): string {
    Decimal(c.x) + [' ', c.op, ' '] + Decimal(c.y)
  }

  lemma TextLength(c: Challenge)
    requires WellFormed(c)
    ensures |Text(c)| <= 11
  {
    NatDecimalLength(c.x, 4);
    NatDecimalLength(c.y, 4);
  }

  /** `PAM_SUCCESS` when `atoi` of the reply equals the answer, otherwise
      `PAM_PERM_DENIED`. */
  function Verdict(c: Challenge, reply: string): PamResult {
    if Answer(c) != Atoi(reply) then PamPermDenied else PamSuccess
  }

  /** A reply that spells a number in decimal passes exactly when that number
      is the answer. */
  lemma VerdictOnDecimal(c: Challenge, n: int)
    ensures Verdict(c, Decimal(n)) == PamSuccess <==> n == Answer(c)
  {
    AtoiDecimal(n);
  }

  /** A reply with no number in it is read as 0, so it passes only the one
      kind of drawn challenge whose answer is 0: a subtraction of equal operands. */
  lemma NonNumericReply(c: Challenge, reply: string)
    requires WellFormed(c)
    requires var t := SkipSpace(reply);
      if t != [] && (t[0] == '-' || t[0] == '+') then t[1..] == [] || !IsDigit(t[1]) else t == [] || !IsDigit(t[0])
    ensures Verdict(c, reply) == PamSuccess <==> c.op == '-' && c.x == c.y
  {
    AtoiNonNumeric(reply);
    MulBound(c.x, c.y);
  }

  /** What a run of the challenge yields: the verdict on the reply and the
      rendered expression. */
  function Expected(rand: Rand, at: nat, reply: string, shell: string -> string): ChallengeRun {
    var c := Generate(rand, at);
    ChallengeRun(Verdict(c, reply), Figlet.Display(Figlet.FontAt(rand, at + DrawsUsed), Text(c), shell))
  }

  /** `math_captcha`: draw, render, prompt, compare. */
  method Run(rand: Rand, at: nat, reply: string, shell: string -> string)
    returns (result: PamResult, shown: seq<string>)
    ensures ChallengeRun(result, shown) == Expected(rand, at, reply, shell)
  {
    var op := Ops[rand(at) % |Ops|];
    var x := rand(at + 1) % OperandSpan + OperandBase;
    var y := rand(at + 2) % OperandSpan + OperandBase;
    var c := Challenge(x, op, y);
    TextLength(c);
    shown := Figlet.Figlet(rand, at + DrawsUsed, Text(c), shell);
    var z := Atoi(reply);
    var answer := Answer(c);
    result := if answer != z then PamPermDenied else PamSuccess;
  }

  /** 314 + 527: the reply "841" passes and "840" is denied. */
  lemma ExampleAddition()
    ensures Generate(Stream([0, 214, 427]), 0) == Challenge(314, '+', 527)
    ensures Verdict(Challenge(314, '+', 527), "841") == PamSuccess
    ensures Verdict(Challenge(314, '+', 527), "840") == PamPermDenied
  {
    var draws: seq<nat> := [0, 214, 427];
    StreamAt(draws, 0);
    StreamAt(draws, 1);
    StreamAt(draws, 2);
    ModSmall(0, |Ops|);
    ModSmall(214, OperandSpan);
    ModSmall(427, OperandSpan);
    assert Decimal(841) == "841";
    assert Decimal(840) == "840";
    VerdictOnDecimal(Challenge(314, '+', 527), 841);
    VerdictOnDecimal(Challenge(314, '+', 527), 840);
  }
}
