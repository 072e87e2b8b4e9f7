/**
 * The stepper prototype `In_Testing/Steper/Steper.py`: an `on_step_change`
 * handler that gets the new index, an `on_complete` handler that takes no
 * event, an indicator row with connectors between the dots, and a
 * navigation row rebuilt on every update. Once completed, `_update_ui`
 * returns at once, while the index still moves.
 */
module SteperProto {
  import opened StepperCore

  /** One control of the indicator row: a step dot (with a check icon when completed), or a connector. */
  datatype Indicator = StepDot(dot: Dot, check: bool) | Connector

  /** The control at position `k` of the row: dots at even positions, connectors between them. */
  function IndicatorAt(k: nat, current: nat): (c: Indicator)
    ensures c.StepDot? <==> k % 2 == 0
    ensures c.StepDot? ==> c.dot == DotAt(k / 2, current) && (c.check <==> k / 2 < current)
  {
    if k % 2 == 0 then StepDot(DotAt(k / 2, current), k / 2 < current) else Connector
  }

  /** The number of controls in the row for `n` steps. */
  function RowLength(n: nat): nat
  {
    if n == 0 then 0 else 2 * n - 1
  }

  /**
   * `_build_indicators`: for each step its dot, then a connector unless it
   * is the last step; `2n - 1` controls for `n` steps.
   */
  method BuildIndicators(n: nat, current: nat) returns (controls: seq<Indicator>)
    ensures |controls| == RowLength(n)
    ensures forall k :: 0 <= k < |controls| ==> controls[k] == IndicatorAt(k, current)
  {
    controls := [];
    var i := 0;
    while i < n
      invariant i <= n
      invariant |controls| == (if i == n then RowLength(n) else 2 * i)
      invariant forall k :: 0 <= k < |controls| ==> controls[k] == IndicatorAt(k, current)
    {
      controls := controls + [StepDot(DotAt(i, current), i < current)];
      assert controls[2 * i] == IndicatorAt(2 * i, current);
      if i < n - 1 {
        controls := controls + [Connector];
        assert controls[2 * i + 1] == IndicatorAt(2 * i + 1, current);
      }
      i := i + 1;
    }
  }

  /** The dots of the row, read back in order, are the dot row of the other steppers. */
  lemma IndicatorDots(n: nat, current: nat, controls: seq<Indicator>)
    requires |controls| == RowLength(n)
    requires forall k :: 0 <= k < |controls| ==> controls[k] == IndicatorAt(k, current)
    ensures |DotRow(n, current)| == n
    ensures forall i :: 0 <= i < n ==> controls[2 * i].StepDot? && controls[2 * i].dot == DotRow(n, current)[i]
    ensures forall k :: 0 <= k < |controls| && k % 2 == 1 ==> controls[k] == Connector
  {
    DotRowAt(n, current);
    forall i | 0 <= i < n
      ensures controls[2 * i].StepDot? && controls[2 * i].dot == DotRow(n, current)[i]
    {
      assert (2 * i) % 2 == 0 && (2 * i) / 2 == i;
    }
  }

  class Stepper {
    /** `len(steps)`. */
    const total: nat
    /** Whether `on_step_change` / `on_complete` are callable. */
    const hasOnStepChange: bool
    const hasOnComplete: bool

    var currentStep: nat
    var completed: bool
    var indicators: seq<Indicator>
    var navigation: Navigation
    /** Every index handed to `on_step_change`, in order. */
    var stepChanges: seq<nat>
    /** How many times `on_complete` was called. */
    var completeCalls: nat

    /** Until completion the indicator and navigation rows show the current step. */
    ghost predicate Valid()
      reads this
    {
      0 < total && currentStep < total &&
      (!completed ==> |indicators| == RowLength(total) &&
                      (forall k :: 0 <= k < |indicators| ==> indicators[k] == IndicatorAt(k, currentStep)) &&
                      navigation == NavigationAt(currentStep, total))
    }

    /** `Stepper(steps, on_complete, on_step_change)`: step 0, not completed, no handler called yet. */
    constructor (total: nat, hasOnStepChange: bool, hasOnComplete: bool)
      requires 0 < total
      ensures Valid()
      ensures this.total == total && this.hasOnStepChange == hasOnStepChange && this.hasOnComplete == hasOnComplete
      ensures currentStep == 0 && !completed && stepChanges == [] && completeCalls == 0
      ensures navigation.prevDisabled && (navigation.nextLabel == "Finalizar" <==> total == 1)
    {
      var row := BuildIndicators(total, 0);
      this.total := total;
      this.hasOnStepChange := hasOnStepChange;
      this.hasOnComplete := hasOnComplete;
      currentStep := 0;
      completed := false;
      indicators := row;
      navigation := NavigationAt(0, total);
      stepChanges := [];
      completeCalls := 0;
    }

    /**
     * `_update_ui`: nothing once completed; otherwise `on_step_change` gets
     * the current index and both rows are rebuilt.
     */
    method UpdateUi()
      requires 0 < total && currentStep < total
      modifies this
      ensures currentStep == old(currentStep) && completed == old(completed) && completeCalls == old(completeCalls)
      ensures old(completed) ==> indicators == old(indicators) && navigation == old(navigation) && stepChanges == old(stepChanges)
      ensures !old(completed) ==>
                stepChanges == old(stepChanges) + (if hasOnStepChange then [currentStep] else []) &&
                |indicators| == RowLength(total) &&
                (forall k :: 0 <= k < |indicators| ==> indicators[k] == IndicatorAt(k, currentStep)) &&
                navigation == NavigationAt(currentStep, total)
    {
      if completed {
        return;
      }
      if hasOnStepChange {
        stepChanges := stepChanges + [currentStep];
      }
      indicators := BuildIndicators(total, currentStep);
      navigation := NavigationAt(currentStep, total);
    }

    /** `prev_step`: nothing at step 0; otherwise one step back. */
    method PrevStep()
      requires Valid()
      modifies this
      ensures Valid() && completed == old(completed) && completeCalls == old(completeCalls)
      ensures currentStep == if old(currentStep) == 0 then 0 else old(currentStep) - 1
      ensures stepChanges == old(stepChanges) +
                (if old(currentStep) > 0 && !completed && hasOnStepChange then [currentStep] else [])
    {
      if currentStep > 0 {
        currentStep := currentStep - 1;
        UpdateUi();
      }
    }

    /**
     * `next_step`: below the last step, one step forward; on the last step
     * `on_complete` is called (when callable) before `_on_complete` marks
     * the stepper completed.
     */
    method NextStep()
      requires Valid()
      modifies this
      ensures Valid()
      ensures old(currentStep) + 1 < total ==>
                currentStep == old(currentStep) + 1 && completed == old(completed) && completeCalls == old(completeCalls) &&
                stepChanges == old(stepChanges) + (if !completed && hasOnStepChange then [currentStep] else [])
      ensures old(currentStep) + 1 == total ==>
                currentStep == old(currentStep) && completed && stepChanges == old(stepChanges) &&
                completeCalls == old(completeCalls) + (if hasOnComplete then 1 else 0)
    {
      if currentStep + 1 < total {
        currentStep := currentStep + 1;
        UpdateUi();
      } else {
        if hasOnComplete {
          completeCalls := completeCalls + 1;
        }
        OnComplete();
      }
    }

    /** `_on_complete`: marks the stepper completed (the content becomes the completion column). */
    method OnComplete()
      requires Valid()
      modifies this
      ensures Valid() && completed
      ensures currentStep == old(currentStep) && stepChanges == old(stepChanges) && completeCalls == old(completeCalls)
    {
      completed := true;
    }
  }

  /**
   * With three steps, three `next_step` calls report steps 1 and 2 to
   * `on_step_change` and call `on_complete` exactly once; a fourth call
   * calls it again, since nothing guards a completed stepper.
   */
  method ThreeNextsCompleteOnce() returns (s: Stepper, callsAfterFour: nat)
    ensures s.currentStep == 2 && s.completed && s.completeCalls == 1 && s.stepChanges == [1, 2]
    ensures callsAfterFour == 2
  {
    s := new Stepper(3, true, true);
    s.NextStep();
    s.NextStep();
    s.NextStep();
    var after := new Stepper(3, true, true);
    after.NextStep();
    after.NextStep();
    after.NextStep();
    after.NextStep();
    callsAfterFour := after.completeCalls;
  }
}
