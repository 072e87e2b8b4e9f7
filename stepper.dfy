/**
 * The stepper wizard of `BasicComponents/Stepper.py`: a current step index
 * over a non-empty list of steps, a `completed` flag, events for a central
 * `on_event` handler and a separate `on_complete` handler.
 *
 * Its "Anterior"/"Siguiente" buttons are built once, in the constructor,
 * and `_build_navigation` reuses them: "Anterior" stays disabled (it was
 * built at step 0) and the forward label never changes.
 */
module Stepper {
  import opened StepperCore

  /** The event handed to `on_complete`: `is_first` is always false and `is_last` always true. */
  function CompletionEvent(current: nat, total: nat): (e: StepperEvent)
    ensures e.kind == Complete && e.completed && e.isLast && !e.isFirst
    ensures e.currentStep == current && e.totalSteps == total
  {
    StepperEvent(Complete, current, total, false, true, true)
  }

  class Stepper {
    /** `len(steps)`; the step cards are widgets and only their number matters here. */
    const total: nat
    /** Whether `on_event` / `on_complete` are callable. */
    const hasOnEvent: bool
    const hasOnComplete: bool
    /** The two navigation buttons, fixed at construction. */
    const prevDisabled: bool
    const nextLabel: string

    var currentStep: nat
    var completed: bool
    /** The step dots as last rebuilt. */
    var dots: seq<Dot>
    /** How many controls the content column holds: 4, or 1 once the default completion view replaced them. */
    var contentSize: nat
    /** Every event handed to `on_event`, in order. */
    var events: seq<StepperEvent>
    /** Every event handed to `on_complete`, in order. */
    var completions: seq<StepperEvent>

    ghost predicate Valid()
      reads this
    {
      0 < total && currentStep < total &&
      dots == DotRow(total, currentStep) &&
      (contentSize == 4 || contentSize == 1) &&
      (hasOnComplete ==> contentSize == 4) &&
      prevDisabled && nextLabel == (if 1 < total then "Siguiente" else "Finalizar")
    }

    /**
     * `Stepper(steps, on_event, on_complete)`: step 0, not completed, and
     * one "change" event. Needs a non-empty list (it shows `steps[0]`).
     */
    constructor (total: nat, hasOnEvent: bool, hasOnComplete: bool)
      requires 0 < total
      ensures Valid()
      ensures this.total == total && this.hasOnEvent == hasOnEvent && this.hasOnComplete == hasOnComplete
      ensures currentStep == 0 && !completed && contentSize == 4 && completions == []
      ensures prevDisabled && (nextLabel == "Finalizar" <==> total == 1)
      ensures events == Sent(hasOnEvent, EventAt(Change, 0, total, false))
    {
      var row := BuildDots(total, 0);
      this.total := total;
      this.hasOnEvent := hasOnEvent;
      this.hasOnComplete := hasOnComplete;
      prevDisabled := true;
      nextLabel := if 0 < total - 1 then "Siguiente" else "Finalizar";
      currentStep := 0;
      completed := false;
      dots := row;
      contentSize := 4;
      completions := [];
      events := Sent(hasOnEvent, EventAt(Change, 0, total, false));
    }

    /** `_dispatch_event(kind)`: the event describes the state at the moment of dispatch. */
    method Dispatch(kind: EventKind)
      modifies this
      ensures events == old(events) + Sent(hasOnEvent, EventAt(kind, currentStep, total, completed))
      ensures currentStep == old(currentStep) && completed == old(completed) && dots == old(dots)
      ensures contentSize == old(contentSize) && completions == old(completions)
    {
      if hasOnEvent {
        events := events + [EventAt(kind, currentStep, total, completed)];
      }
    }

    /**
     * `_update_ui`: rebuilds the dots, then writes `content.controls[2]`,
     * which raises `IndexError` (`ok == false`) once the default completion
     * view left a single control.
     */
    method UpdateUi() returns (ok: bool)
      requires 0 < total && currentStep < total
      modifies this
      ensures dots == DotRow(total, currentStep)
      ensures ok <==> contentSize >= 3
      ensures currentStep == old(currentStep) && completed == old(completed) && contentSize == old(contentSize)
      ensures events == old(events) && completions == old(completions)
    {
      dots := BuildDots(total, currentStep);
      ok := contentSize >= 3;
    }

    /**
     * `prev_step`: nothing at step 0; otherwise one step back, then "prev"
     * and "change". When `_update_ui` fails the step has already moved and
     * no event is sent.
     */
    method PrevStep() returns (ok: bool)
      requires Valid()
      modifies this
      ensures Valid() && completed == old(completed) && contentSize == old(contentSize) && completions == old(completions)
      ensures old(currentStep) == 0 ==> ok && currentStep == 0 && events == old(events)
      ensures old(currentStep) > 0 ==>
                currentStep == old(currentStep) - 1 && (ok <==> old(contentSize) == 4) &&
                events == old(events) + (if ok then Sent(hasOnEvent, EventAt(Prev, currentStep, total, completed))
                                                    + Sent(hasOnEvent, EventAt(Change, currentStep, total, completed))
                                         else [])
    {
      ok := true;
      if currentStep > 0 {
        currentStep := currentStep - 1;
        ok := UpdateUi();
        if ok {
          Dispatch(Prev);
          Dispatch(Change);
        }
      }
    }

    /**
     * `next_step`: below the last step, one step forward, then "next" and
     * "change"; on the last step the index stays and `_on_complete` runs.
     */
    method NextStep() returns (ok: bool)
      requires Valid()
      modifies this
      ensures Valid()
      ensures old(currentStep) + 1 < total ==>
                currentStep == old(currentStep) + 1 && completed == old(completed) &&
                contentSize == old(contentSize) && completions == old(completions) &&
                (ok <==> old(contentSize) == 4) &&
                events == old(events) + (if ok then Sent(hasOnEvent, EventAt(Next, currentStep, total, completed))
                                                    + Sent(hasOnEvent, EventAt(Change, currentStep, total, completed))
                                         else [])
      ensures old(currentStep) + 1 == total ==>
                ok && currentStep == old(currentStep) && completed &&
                events == old(events) + Sent(hasOnEvent, EventAt(Complete, currentStep, total, true)) &&
                completions == old(completions) + (if hasOnComplete then [CompletionEvent(currentStep, total)] else []) &&
                contentSize == (if hasOnComplete then old(contentSize) else 1)
    {
      if currentStep + 1 < total {
        currentStep := currentStep + 1;
        ok := UpdateUi();
        if ok {
          Dispatch(Next);
          Dispatch(Change);
        }
      } else {
        OnComplete();
        ok := true;
      }
    }

    /**
     * `_on_complete`: `completed` is set before "complete" is dispatched;
     * `on_complete`, when callable, gets its own event, and otherwise the
     * content is replaced by the single completion column.
     */
    method OnComplete()
      requires Valid()
      modifies this
      ensures Valid() && currentStep == old(currentStep) && completed
      ensures events == old(events) + Sent(hasOnEvent, EventAt(Complete, currentStep, total, true))
      ensures completions == old(completions) + (if hasOnComplete then [CompletionEvent(currentStep, total)] else [])
      ensures contentSize == (if hasOnComplete then old(contentSize) else 1)
    {
      completed := true;
      Dispatch(Complete);
      if hasOnComplete {
        completions := completions + [CompletionEvent(currentStep, total)];
      } else {
        contentSize := 1;
      }
    }
  }

  /**
   * With three steps, three `next_step` calls reach the last step and
   * call `on_complete` exactly once, with a completed, last-step event; the
   * handler saw "change" at 0, then "next"/"change" at 1 and at 2, then
   * "complete".
   */
  method ThreeNextsCompleteOnce() returns (s: Stepper)
    ensures s.currentStep == 2 && s.completed && |s.completions| == 1
    ensures s.completions[0].isLast && s.completions[0].completed
    ensures |s.events| == 6 && s.events[0].kind == Change && s.events[5].kind == Complete
    ensures s.events[5].isLast && s.events[5].completed && !s.events[4].completed
  {
    s := new Stepper(3, true, true);
    var ok := s.NextStep();
    ok := s.NextStep();
    ok := s.NextStep();
  }
}
