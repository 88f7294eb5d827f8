/** Four-register hash rounds: the register roles of RFC 1320 and RFC 1321, section 3.4 of both. */
module Registers {

  datatype Regs<T> = Regs(a: T, b: T, c: T, d: T)

  /** The new value of the register whose turn it is, from the step number and the registers in their current roles. */
  type Mix<!T> = (nat, T, T, T, T) -> T

  /** The schedules of the RFCs: [ABCD], [DABC], [CDAB], [BCDA], each step overwriting its first register in place. */
  function StepInPlace<T>(mix: Mix<T>, i: nat, r: Regs<T>): Regs<T> {
    if i % 4 == 0 then r.(a := mix(i, r.a, r.b, r.c, r.d))
    else if i % 4 == 1 then r.(d := mix(i, r.d, r.a, r.b, r.c))
    else if i % 4 == 2 then r.(c := mix(i, r.c, r.d, r.a, r.b))
    else r.(b := mix(i, r.b, r.c, r.d, r.a))
  }

  function RunInPlace<T>(mix: Mix<T>, n: nat, r: Regs<T>): Regs<T> {
    if n == 0 then r else StepInPlace(mix, n - 1, RunInPlace(mix, n - 1, r))
  }

  /** The same step with fixed roles and moving registers. */
  function StepRotating<T>(mix: Mix<T>, i: nat, r: Regs<T>): Regs<T> {
    Regs(r.d, mix(i, r.a, r.b, r.c, r.d), r.b, r.c)
  }

  function RunRotating<T>(mix: Mix<T>, n: nat, r: Regs<T>): Regs<T> {
    if n == 0 then r else StepRotating(mix, n - 1, RunRotating(mix, n - 1, r))
  }

  /** The registers in the roles they have for step `n`. */
  function Turn<T>(n: nat, r: Regs<T>): Regs<T> {
    if n % 4 == 0 then r
    else if n % 4 == 1 then Regs(r.d, r.a, r.b, r.c)
    else if n % 4 == 2 then Regs(r.c, r.d, r.a, r.b)
    else Regs(r.b, r.c, r.d, r.a)
  }

  lemma TurnStep<T>(mix: Mix<T>, n: nat, r: Regs<T>)
    ensures StepRotating(mix, n, Turn(n, r)) == Turn(n + 1, StepInPlace(mix, n, r))
  {
  }

  /** Moving the registers is the in-place schedule, up to the roles of the next step. */
  lemma {:induction false} RotatingIsInPlace<T>(mix: Mix<T>, n: nat, r: Regs<T>)
    ensures RunRotating(mix, n, r) == Turn(n, RunInPlace(mix, n, r))
  {
    assert Turn(0, r) == r;
    if n > 0 {
      hide StepRotating, StepInPlace, Turn;
      RotatingIsInPlace(mix, n - 1, r);
      TurnStep(mix, n - 1, RunInPlace(mix, n - 1, r));
    }
  }

  /** Four steps of the in-place schedule, after which every register has had its turn. */
  function FourSteps<T>(mix: Mix<T>, i: nat, r: Regs<T>): Regs<T> {
    var a := mix(i, r.a, r.b, r.c, r.d);
    var d := mix(i + 1, r.d, a, r.b, r.c);
    var c := mix(i + 2, r.c, d, a, r.b);
    var b := mix(i + 3, r.b, c, d, a);
    Regs(a, b, c, d)
  }

  lemma FourStepsRun<T>(mix: Mix<T>, i: nat, r: Regs<T>)
    requires i % 4 == 0
    ensures RunInPlace(mix, i + 4, r) == FourSteps(mix, i, RunInPlace(mix, i, r))
  {
    var start := RunInPlace(mix, i, r);
    assert RunInPlace(mix, i + 1, r) == StepInPlace(mix, i, start);
    assert RunInPlace(mix, i + 2, r) == StepInPlace(mix, i + 1, RunInPlace(mix, i + 1, r));
    assert RunInPlace(mix, i + 3, r) == StepInPlace(mix, i + 2, RunInPlace(mix, i + 2, r));
    assert RunInPlace(mix, i + 4, r) == StepInPlace(mix, i + 3, RunInPlace(mix, i + 3, r));
  }
}
