/**
 * The stepper prototype `In_Testing/Steper/main.py`: one central
 * `on_event` handler, a navigation row rebuilt from the current step, and
 * a completion view that always replaces the content.
 */
module StepperEventsProto {
  import opened StepperCore

  class Stepper {
    /** `len(steps)`. */
    const total: nat
    /** Whether `on_event` is callable. */
    const hasOnEvent: bool

    var currentStep: nat
    var completed: bool
    var dots: seq<Dot>
    var navigation: Navigation
    /** How many controls the content column holds: 4, or 1 once the completion view replaced them. */
    var contentSize: nat
    /** Every event handed to `on_event`, in order. */
    var events: seq<StepperEvent>

    /** The dots and the navigation row always show the current step; the content shrinks exactly on completion. */
    ghost predicate Valid()
      reads this
    {
      0 < total && currentStep < total &&
      dots == DotRow(total, currentStep) && navigation == NavigationAt(currentStep, total) &&
      contentSize == (if completed then 1 else 4)
    }

    /** `Stepper(steps, on_event)`: step 0, not completed, and one "change" event. */
    constructor (total: nat, hasOnEvent: bool)
      requires 0 < total
      ensures Valid()
      ensures this.total == total && this.hasOnEvent == hasOnEvent
      ensures currentStep == 0 && !completed && navigation.prevDisabled
      ensures events == Sent(hasOnEvent, EventAt(Change, 0, total, false))
    {
      var row := BuildDots(total, 0);
      this.total := total;
      this.hasOnEvent := hasOnEvent;
      currentStep := 0;
      completed := false;
      dots := row;
      navigation := NavigationAt(0, total);
      contentSize := 4;
      events := Sent(hasOnEvent, EventAt(Change, 0, total, false));
    }

    /** `_dispatch_event(kind)`: the event describes the state at the moment of dispatch. */
    method Dispatch(kind: EventKind)
      modifies this
      ensures events == old(events) + Sent(hasOnEvent, EventAt(kind, currentStep, total, completed))
      ensures currentStep == old(currentStep) && completed == old(completed) && dots == old(dots)
      ensures navigation == old(navigation) && contentSize == old(contentSize)
    {
      if hasOnEvent {
        events := events + [EventAt(kind, currentStep, total, completed)];
      }
    }

    /**
     * `_update_ui`: rebuilds the dots and the navigation row, then writes
     * `content.controls[2]`, which raises `IndexError` (`ok == false`) once
     * the completion view left a single control.
     */
    method UpdateUi() returns (ok: bool)
      requires 0 < total && currentStep < total
      modifies this
      ensures dots == DotRow(total, currentStep) && navigation == NavigationAt(currentStep, total)
      ensures ok <==> contentSize >= 3
      ensures currentStep == old(currentStep) && completed == old(completed) && contentSize == old(contentSize)
      ensures events == old(events)
    {
      dots := BuildDots(total, currentStep);
      navigation := NavigationAt(currentStep, total);
      ok := contentSize >= 3;
    }

    /**
     * `prev_step`: never below step 0; a move back sends "prev" then
     * "change", unless `_update_ui` fails on a completed stepper.
     */
    method PrevStep() returns (ok: bool)
      requires Valid()
      modifies this
      ensures Valid() && completed == old(completed)
      ensures old(currentStep) == 0 ==> ok && currentStep == 0 && events == old(events)
      ensures old(currentStep) > 0 ==>
                currentStep == old(currentStep) - 1 && (ok <==> !completed) &&
                events == old(events) + (if ok then Sent(hasOnEvent, EventAt(Prev, currentStep, total, false))
                                                    + Sent(hasOnEvent, EventAt(Change, currentStep, total, false))
                                         else [])
    {
      ok := true;
      if currentStep > 0 {
        currentStep := currentStep - 1;
        ok := UpdateUi();
        if ok {
          Dispatch(Prev);
          Dispatch(Change);
        }
      }
    }

    /**
     * `next_step`: never past the last step; a move forward sends "next"
     * then "change"; on the last step `_on_complete` runs.
     */
    method NextStep() returns (ok: bool)
      requires Valid()
      modifies this
      ensures Valid()
      ensures old(currentStep) + 1 < total ==>
                currentStep == old(currentStep) + 1 && completed == old(completed) && (ok <==> !completed) &&
                events == old(events) + (if ok then Sent(hasOnEvent, EventAt(Next, currentStep, total, false))
                                                    + Sent(hasOnEvent, EventAt(Change, currentStep, total, false))
                                         else [])
      ensures old(currentStep) + 1 == total ==>
                ok && currentStep == old(currentStep) && completed &&
                events == old(events) + Sent(hasOnEvent, EventAt(Complete, currentStep, total, true))
    {
      if currentStep + 1 < total {
        currentStep := currentStep + 1;
        ok := UpdateUi();
        if ok {
          Dispatch(Next);
          Dispatch(Change);
        }
      } else {
        OnComplete();
        ok := true;
      }
    }

    /**
     * `_on_complete`: `completed` is set before "complete" is dispatched,
     * so that event says completed; the content becomes the single
     * completion column.
     */
    method OnComplete()
      requires Valid()
      modifies this
      ensures Valid() && currentStep == old(currentStep) && completed && contentSize == 1
      ensures events == old(events) + Sent(hasOnEvent, EventAt(Complete, currentStep, total, true))
    {
      completed := true;
      Dispatch(Complete);
      contentSize := 1;
    }
  }

  /**
   * With three steps and a handler, three `next_step` calls send
   * "change" at 0, "next"/"change" at 1 and at 2, then one "complete" event
   * that is the last step's and says completed; a "prev" afterwards fails.
   */
  method ThreeNextsThenPrev() returns (s: Stepper, prevOk: bool)
    ensures s.completed && s.currentStep == 1 && !prevOk
    ensures |s.events| == 6 && s.events[0] == EventAt(Change, 0, 3, false)
    ensures s.events[1].kind == Next && s.events[3].kind == Next && s.events[4].currentStep == 2
    ensures s.events[5].kind == Complete && s.events[5].isLast && s.events[5].completed
  {
    s := new Stepper(3, true);
    var ok := s.NextStep();
    ok := s.NextStep();
    ok := s.NextStep();
    prevOk := s.PrevStep();
  }
}
