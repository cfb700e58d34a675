/** The registration page's step counter over its four steps: welcome,
    authentication, accounts and completion (src/app/auth/register/page.tsx). */
module Wizard {

  /** The number of entries in `steps`. */
  const StepCount: nat := 4

  /** `handleNext` on a step value: one forward, except on the last step. */
  function Next(step: int): (r: int)
    ensures step < StepCount - 1 ==> r == step + 1
    ensures step >= StepCount - 1 ==> r == step
  {
    if step < StepCount - 1 then step + 1 else step
  }

  /** `handleBack` on a step value: one back, except on the first step. */
  function Back(step: int): (r: int)
    ensures step > 0 ==> r == step - 1
    ensures step <= 0 ==> r == step
  {
    if step > 0 then step - 1 else step
  }

  datatype Move = Forward | Backward

  /** The step after a sequence of button presses. */
  function Run(step: int, moves: seq<Move>): int
    decreases |moves|
  {
    if moves == [] then step
    else Run(if moves[0] == Forward then Next(step) else Back(step), moves[1..])
  }

  /** From the initial step 0, no sequence of presses leaves 0..3, so
      `steps[currentStep]` always names a step. */
  lemma {:induction false} RunStaysInRange(step: int, moves: seq<Move>)
    requires 0 <= step < StepCount
    ensures 0 <= Run(step, moves) < StepCount
    decreases |moves|
  {
    if moves != [] {
      RunStaysInRange(if moves[0] == Forward then Next(step) else Back(step), moves[1..]);
    }
  }

  /** Forward then back returns to the same step below the last one. */
  lemma NextThenBack(step: int)
    requires 0 <= step < StepCount - 1
    ensures Back(Next(step)) == step
  {
  }

  /** The page's `currentStep` state. */
  class Page {
    var currentStep: int

    predicate Valid()
      reads this
    {
      0 <= currentStep < StepCount
    }

    /** `useState(0)`: the wizard opens on the welcome step. */
    constructor ()
      ensures currentStep == 0 && Valid()
    {
      currentStep := 0;
    }

    method HandleNext()
      requires Valid()
      modifies this
      ensures currentStep == Next(old(currentStep)) && Valid()
    {
      if currentStep < StepCount - 1 {
        currentStep := currentStep + 1;
      }
    }

    method HandleBack()
      requires Valid()
      modifies this
      ensures currentStep == Back(old(currentStep)) && Valid()
    {
      if currentStep > 0 {
        currentStep := currentStep - 1;
      }
    }
  }
}
