/**
 * What the three stepper wizards share: the event record they dispatch,
 * the per-index colour rule of the step indicators, the dot row built from
 * it, and the navigation row that the two prototypes rebuild.
 */
module StepperCore {

  /** The `type` of a dispatched event: "change", "prev", "next", "complete". */
  datatype EventKind = Change | Prev | Next | Complete

  /**
   * `StepperEvent`: the step itself and the parent control are references
   * to widgets; the step is identified here by its index.
   */
  datatype StepperEvent = StepperEvent(kind: EventKind, currentStep: nat, totalSteps: nat,
                                       isFirst: bool, isLast: bool, completed: bool)

  /** The event `_dispatch_event` builds from the stepper's current state. */
  function EventAt(kind: EventKind, current: nat, total: nat, completed: bool): (e: StepperEvent)
    ensures e.kind == kind && e.currentStep == current && e.totalSteps == total && e.completed == completed
    ensures e.isFirst <==> current == 0
    ensures e.isLast <==> current + 1 == total
  {
    StepperEvent(kind, current, total, current == 0, current + 1 == total, completed)
  }

  /** An event reaches `on_event` only when a callable handler was given. */
  function Sent(handler: bool, e: StepperEvent): (r: seq<StepperEvent>)
    ensures |r| <= 1 && (handler <==> r == [e])
  {
    if handler then [e] else []
  }

  /** The three indicator colours. */
  datatype Colour = CompletedColour | ActiveColour | InactiveColour

  /** One step dot: its background colour and whether its title is drawn at full white. */
  datatype Dot = Dot(colour: Colour, litLabel: bool)

  /** The dot of step `i` while `current` is the current step. */
  function DotAt(i: nat, current: nat): (d: Dot)
    ensures d.colour == CompletedColour <==> i < current
    ensures d.colour == ActiveColour <==> i == current
    ensures d.colour == InactiveColour <==> i > current
    ensures d.litLabel <==> d.colour != InactiveColour
  {
    if i < current then Dot(CompletedColour, true)
    else if i == current then Dot(ActiveColour, true)
    else Dot(InactiveColour, false)
  }

  /** The dots of steps `0 .. n-1`, in order. */
  function DotRow(n: nat, current: nat): seq<Dot>
  {
    if n == 0 then [] else DotRow(n - 1, current) + [DotAt(n - 1, current)]
  }

  /** The `k`-th dot of the row is the dot of step `k`. */
  lemma {:induction false} DotRowAt(n: nat, current: nat)
    ensures |DotRow(n, current)| == n
    ensures forall k :: 0 <= k < n ==> DotRow(n, current)[k] == DotAt(k, current)
  {
    if n > 0 {
      DotRowAt(n - 1, current);
    }
  }

  /** How many dots of `row` have colour `c`. */
  function CountColour(row: seq<Dot>, c: Colour): nat
  {
    if row == [] then 0
    else CountColour(row[..|row| - 1], c) + (if row[|row| - 1].colour == c then 1 else 0)
  }

  /**
   * While the current step is one of the `n` steps, exactly `current` dots
   * are completed, exactly one is active and the remaining `n - current - 1`
   * are inactive.
   */
  lemma {:induction false} DotRowCounts(n: nat, current: nat)
    requires current < n
    ensures CountColour(DotRow(n, current), CompletedColour) == current
    ensures CountColour(DotRow(n, current), ActiveColour) == 1
    ensures CountColour(DotRow(n, current), InactiveColour) == n - current - 1
  {
    var row := DotRow(n, current);
    assert row[..|row| - 1] == DotRow(n - 1, current);
    if current < n - 1 {
      DotRowCounts(n - 1, current);
    } else {
      BelowCounts(n - 1, current);
    }
  }

  /** Before the current step is reached, every dot is completed. */
  lemma {:induction false} BelowCounts(n: nat, current: nat)
    requires n <= current
    ensures CountColour(DotRow(n, current), CompletedColour) == n
    ensures CountColour(DotRow(n, current), ActiveColour) == 0
    ensures CountColour(DotRow(n, current), InactiveColour) == 0
  {
    if n > 0 {
      var row := DotRow(n, current);
      assert row[..|row| - 1] == DotRow(n - 1, current);
      BelowCounts(n - 1, current);
    }
  }

  /** `_build_indicators`: one dot per step, appended in step order. */
  method BuildDots(n: nat, current: nat) returns (dots: seq<Dot>)
    ensures dots == DotRow(n, current)
    ensures |dots| == n && forall k :: 0 <= k < n ==> dots[k] == DotAt(k, current)
  {
    dots := [];
    var i := 0;
    while i < n
      invariant i <= n && dots == DotRow(i, current)
    {
      dots := dots + [DotAt(i, current)];
      i := i + 1;
    }
    DotRowAt(n, current);
  }

  /** The navigation row: whether "Anterior" is disabled, and the label of the forward button. */
  datatype Navigation = Navigation(prevDisabled: bool, nextLabel: string)

  /** `_build_navigation` of the prototypes, rebuilt from the current step. */
  function NavigationAt(current: nat, total: nat): (nav: Navigation)
    ensures nav.prevDisabled <==> current == 0
    ensures nav.nextLabel == "Finalizar" <==> current + 1 >= total
    ensures nav.nextLabel == "Siguiente" <==> current + 1 < total
  {
    Navigation(current == 0, if current + 1 < total then "Siguiente" else "Finalizar")
  }
}
