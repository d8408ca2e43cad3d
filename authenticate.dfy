/**
 * The authentication entry point (`pam_sm_authenticate`): build the
 * challenge list from the module options, pick one challenge with `rand()`,
 * run it, and return its result, pausing before a failure is reported.
 */
module Authenticate {
  import opened Wrappers
  import opened Libc
  import opened Pam
  import Registry
  import MathCaptcha
  import StringChallenge = RandomString

  /** What one authentication attempt yields: the PAM code returned, whether
      the three-second pause precedes it, and the lines shown to the user. */
  datatype Attempt = Attempt(result: PamResult, delayed: bool, shown: seq<string>)

  /** The `rand()` call that selects the challenge; the challenge itself draws
      from the calls after it. */
  const SelectionDraw: nat := 0
  const ChallengeDraws: nat := 1

  // ---------------------------------------------------------------------
  // Selection

  /** The outcome of `captchas[rand() % num_captchas]` as written: with an
      empty list the remainder divides by zero. */
  datatype Pick = Picked(variant: Registry.Variant) | DivideByZero

  function SelectAsWritten(list: seq<Registry.Variant>, draw: nat): (p: Pick)
    ensures p.DivideByZero? <==> list == []
    ensures p.Picked? ==> p.variant in list
  {
    if |list| == 0 then DivideByZero else Picked(list[draw % |list|])
  }

  /** Options that name no registered challenge leave the list empty, and the
      selection as written then divides by zero. */
  lemma EmptyListDividesByZero(argv: seq<string>, draw: nat)
    requires forall i :: 0 <= i < |argv| ==> Registry.Lookup(argv[i]).None?
    ensures SelectAsWritten(Registry.Filter(argv), draw) == DivideByZero
  {
    Registry.FilterEmpty(argv);
  }

  /** The selection with the empty list handled: nothing is picked. */
  function Select(list: seq<Registry.Variant>, draw: nat): (r: Option<Registry.Variant>)
    ensures r.None? <==> list == []
    ensures r.Some? ==> r.value in list
  {
    if list == [] then None else Some(list[draw % |list|])
  }

  /** Every entry of the list is picked by the draw equal to its position. */
  lemma SelectReachesAll(list: seq<Registry.Variant>, r: nat)
    requires r < |list|
    ensures Select(list, r) == Some(list[r])
  {
    ModSmall(r, |list|);
  }

  /** The number of draws below `n` that pick `v`. */
  function Hits(list: seq<Registry.Variant>, v: Registry.Variant, n: nat): nat
    requires n <= |list|
  {
    if n == 0 then 0 else Hits(list, v, n - 1) + (if Select(list, n - 1) == Some(v) then 1 else 0)
  }

  lemma {:induction false} HitsCount(list: seq<Registry.Variant>, v: Registry.Variant, n: nat)
    requires n <= |list|
    ensures Hits(list, v, n) == multiset(list[..n])[v]
  {
    if n > 0 {
      HitsCount(list, v, n - 1);
      SelectReachesAll(list, n - 1);
      assert list[..n] == list[..n - 1] + [list[n - 1]];
    }
  }

  /** Weighting by repetition: of the `num_captchas` residues of `rand()`, a
      challenge is picked by as many as there are options naming it. */
  lemma SelectionWeight(argv: seq<string>, v: Registry.Variant)
    ensures Hits(Registry.Filter(argv), v, |Registry.Filter(argv)|) == multiset(argv)[Registry.Name(v)]
  {
    var list := Registry.Filter(argv);
    HitsCount(list, v, |list|);
    assert list[..|list|] == list;
    Registry.FilterWeight(argv, v);
  }

  // ---------------------------------------------------------------------
  // The attempt

  /** What the picked challenge yields, drawing from the calls after the selection. */
  function RunChallenge(v: Registry.Variant, rand: Rand, reply: string, shell: string -> string): ChallengeRun {
    match v
    case Math => MathCaptcha.Expected(rand, ChallengeDraws, reply, shell)
    case RandomString => StringChallenge.Expected(rand, ChallengeDraws, reply, shell)
  }

  /** A challenge only ever passes or denies. */
  lemma RunChallengeResult(v: Registry.Variant, rand: Rand, reply: string, shell: string -> string)
    ensures RunChallenge(v, rand, reply, shell).result in {PamSuccess, PamPermDenied}
  {
  }

  /** The whole attempt for the options `argv`, the `rand()` stream, the
      user's reply and the renderer. */
  function Expected(argv: seq<string>, rand: Rand, reply: string, shell: string -> string): Attempt {
    match Select(Registry.Filter(argv), rand(SelectionDraw))
    case None => Attempt(PamServiceErr, false, [])
    case Some(v) =>
      var run := RunChallenge(v, rand, reply, shell);
      Attempt(run.result, run.result != PamSuccess, run.shown)
  }

  /** The outcome of an attempt: a service error exactly when no option names
      a challenge, and then nothing is shown and there is no pause; otherwise
      the pause comes exactly with a denial. */
  lemma ExpectedOutcome(argv: seq<string>, rand: Rand, reply: string, shell: string -> string)
    ensures var a := Expected(argv, rand, reply, shell);
      && (a.result == PamServiceErr <==> forall i :: 0 <= i < |argv| ==> Registry.Lookup(argv[i]).None?)
      && (a.result == PamServiceErr ==> a.shown == [] && !a.delayed)
      && (a.delayed <==> a.result == PamPermDenied)
  {
    Registry.FilterEmpty(argv);
    var list := Registry.Filter(argv);
    if list != [] {
      RunChallengeResult(list[rand(SelectionDraw) % |list|], rand, reply, shell);
    }
  }

  /** The challenge that runs is one an option named. */
  lemma ChoiceIsConfigured(argv: seq<string>, draw: nat)
    requires Select(Registry.Filter(argv), draw).Some?
    ensures Registry.Name(Select(Registry.Filter(argv), draw).value) in argv
  {
    Registry.FilterOnlyConfigured(argv, Select(Registry.Filter(argv), draw).value);
  }

  /** With only the arithmetic challenge configured, the attempt passes exactly
      when `atoi` of the reply is the value of the expression drawn. */
  lemma MathOnly(argv: seq<string>, rand: Rand, reply: string, shell: string -> string)
    requires argv == ["math"]
    ensures Expected(argv, rand, reply, shell).result == PamSuccess <==>
      Atoi(reply) == MathCaptcha.Answer(MathCaptcha.Generate(rand, ChallengeDraws))
  {
    Registry.FilterSingle("math");
  }

  /** `pam_sm_authenticate`: build the list, pick, run, pause on failure. */
  method Authenticate(argv: seq<string>, rand: Rand, reply: string, shell: string -> string)
    returns (result: PamResult, delayed: bool, shown: seq<string>)
    ensures Attempt(result, delayed, shown) == Expected(argv, rand, reply, shell)
  {
    var list, num := Registry.InitCaptchaList(argv);
    if num == 0 {
      return PamServiceErr, false, [];
    }
    var r := rand(SelectionDraw) % num;
    var v := list[r].value;
    match v {
      case Math =>
        result, shown := MathCaptcha.Run(rand, ChallengeDraws, reply, shell);
      case RandomString =>
        result, shown := StringChallenge.Run(rand, ChallengeDraws, reply, shell);
    }
    delayed := result != PamSuccess;
  }

  /** 314 + 527 drawn after the selection: "841" passes with no pause, "840"
      is denied after one. */
  lemma ExampleMathAttempt(shell: string -> string)
    ensures var rand := Stream([0, 0, 214, 427]);
      && Expected(["math"], rand, "841", shell).result == PamSuccess
      && !Expected(["math"], rand, "841", shell).delayed
      && Expected(["math"], rand, "840", shell).result == PamPermDenied
      && Expected(["math"], rand, "840", shell).delayed
  {
    var draws: seq<nat> := [0, 0, 214, 427];
    StreamAt(draws, 0);
    StreamAt(draws, 1);
    StreamAt(draws, 2);
    StreamAt(draws, 3);
    ModSmall(0, |MathCaptcha.Ops|);
    ModSmall(214, MathCaptcha.OperandSpan);
    ModSmall(427, MathCaptcha.OperandSpan);
    assert MathCaptcha.Generate(Stream(draws), ChallengeDraws) == MathCaptcha.Challenge(314, '+', 527);
    MathCaptcha.ExampleAddition();
    Registry.FilterSingle("math");
  }
}
