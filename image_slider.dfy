/**
 * ImagesSlider: shows one image of a non-empty list at a time, with
 * previous/next arrows that wrap around, one round indicator button per
 * image (the current one highlighted), and an optional auto-play task
 * that advances one image per tick.
 *
 * Opacities and scales are kept as whole percentages (0.4 is 40).
 */
module ImageSlider {
  import opened Wrappers

  datatype Image = Image(src: string)

  /** The switcher transitions the slider knows by name. */
  datatype Transition = Fade | Scale | Rotation

  /** `{"FADE": ..., "SCALE": ..., "ROTATION": ...}.get(name, FADE)`. */
  function TransitionOf(name: string): (t: Transition)
    ensures t == Scale <==> name == "SCALE"
    ensures t == Rotation <==> name == "ROTATION"
    ensures name != "SCALE" && name != "ROTATION" ==> t == Fade
  {
    if name == "SCALE" then Scale
    else if name == "ROTATION" then Rotation
    else Fade
  }

  /** Python's `a % n` for a positive `n`: the floor-division remainder. */
  function FloorMod(a: int, n: int): (r: int)
    requires 0 < n
    ensures 0 <= r < n
  {
    a % n
  }

  /** An index already in range is its own remainder. */
  lemma FloorModInRange(a: int, n: int)
    requires 0 <= a < n
    ensures FloorMod(a, n) == a
  {
  }

  lemma MulGap(a: int, b: int, n: int)
    requires 0 < n
    ensures a < b ==> a * n + n <= b * n
  {
    if a < b {
      var d := b - a - 1;
      assert 0 <= d * n;
      assert b * n == a * n + d * n + n;
    }
  }

  /** The remainder is the only `r` in `[0, n)` with `x = q * n + r`. */
  lemma ModUnique(x: int, n: int, q: int, r: int)
    requires 0 <= r < n && x == q * n + r
    ensures FloorMod(x, n) == r
  {
    var q', r' := x / n, x % n;
    assert x == q' * n + r';
    MulGap(q', q, n);
    MulGap(q, q', n);
  }

  /** Adding a whole turn changes nothing. */
  lemma FloorModPeriod(a: int, n: int)
    requires 0 < n
    ensures FloorMod(a + n, n) == FloorMod(a, n)
    ensures FloorMod(a - n, n) == FloorMod(a, n)
  {
    var q, r := a / n, a % n;
    assert a == q * n + r;
    assert a + n == (q + 1) * n + r;
    assert a - n == (q - 1) * n + r;
    ModUnique(a + n, n, q + 1, r);
    ModUnique(a - n, n, q - 1, r);
  }

  /** Next from the last image is the first, previous from the first is the last. */
  lemma WrapAround(n: int)
    requires 0 < n
    ensures FloorMod(n - 1 + 1, n) == 0
    ensures FloorMod(0 - 1, n) == n - 1
  {
    FloorModPeriod(-1, n);
    FloorModInRange(n - 1, n);
  }

  /** Previous undoes next, and next undoes previous. */
  lemma NextPrevInverse(i: int, n: int)
    requires 0 <= i < n
    ensures FloorMod(FloorMod(i + 1, n) - 1, n) == i
    ensures FloorMod(FloorMod(i - 1, n) + 1, n) == i
  {
    if i + 1 == n {
      WrapAround(n);
    } else {
      FloorModInRange(i + 1, n);
    }
    if i == 0 {
      WrapAround(n);
    } else {
      FloorModInRange(i - 1, n);
    }
    FloorModInRange(i, n);
  }

  /** A round indicator button: its `data` index, colour, opacity and scale. */
  datatype Indicator = Indicator(data: int, bgcolor: string, opacityPct: nat, scalePct: nat)

  /** The colour and opacity an indicator gets from `set_current`. */
  function Mark(b: Indicator, selected: bool, colour: string, selectedColour: string): (r: Indicator)
    ensures r.data == b.data && r.scalePct == b.scalePct
    ensures r.bgcolor == (if selected then selectedColour else colour)
    ensures r.opacityPct == (if selected then 100 else 40)
  {
    b.(bgcolor := if selected then selectedColour else colour,
       opacityPct := if selected then 100 else 40)
  }

  class ImagesSlider {
    const images: seq<Image>
    const autoPlay: bool
    const buttonsColour: string
    const selectedColour: string
    const transition: Transition
    /** The indicator buttons, one per image. */
    const buttons: array<Indicator>
    var currentIndex: int
    var isRunning: bool
    /** Whether `did_mount` started the auto-play task. */
    var autoStarted: bool
    /** The image the switcher shows. */
    var shown: Image

    predicate Valid()
      reads this, buttons
    {
      0 < |images| && buttons.Length == |images| &&
      (forall i :: 0 <= i < buttons.Length ==> buttons[i].data == i) &&
      0 <= currentIndex < |images| && shown == images[currentIndex]
    }

    /** Exactly the indicator at `currentIndex` is highlighted. */
    predicate Highlighted()
      reads this, buttons
    {
      forall i :: 0 <= i < buttons.Length ==>
        buttons[i] == Mark(buttons[i], i == currentIndex, buttonsColour, selectedColour)
    }

    /** The slider for a non-empty list; `Create` handles the empty one. */
    constructor(images: seq<Image>, autoPlay: bool, buttonsColour: string, selectedColour: string,
                animationType: string)
      requires images != []
      ensures Valid()
      ensures this.images == images && this.autoPlay == autoPlay
      ensures this.buttonsColour == buttonsColour && this.selectedColour == selectedColour
      ensures transition == TransitionOf(animationType)
      ensures currentIndex == 0 && !isRunning && !autoStarted && shown == images[0]
      ensures fresh(buttons)
      ensures forall i :: 0 <= i < buttons.Length ==> buttons[i] == Indicator(i, buttonsColour, 40, 100)
    {
      this.images := images;
      this.autoPlay := autoPlay;
      this.buttonsColour := buttonsColour;
      this.selectedColour := selectedColour;
      transition := TransitionOf(animationType);
      currentIndex := 0;
      isRunning := false;
      autoStarted := false;
      shown := images[0];
      buttons := new Indicator[|images|](i => Indicator(i, buttonsColour, 40, 100));
    }

    /** `ImagesSlider(images, ...)`: an empty list raises ValueError. */
    static method Create(images: seq<Image>, autoPlay: bool, buttonsColour: string,
                         selectedColour: string, animationType: string)
      returns (r: Option<ImagesSlider>)
      ensures r.None? <==> images == []
      ensures r.Some? ==> (fresh(r.value) && fresh(r.value.buttons) && r.value.Valid() &&
        r.value.images == images && r.value.currentIndex == 0 &&
        r.value.transition == TransitionOf(animationType))
    {
      if images == [] {
        return None;
      }
      var s := new ImagesSlider(images, autoPlay, buttonsColour, selectedColour, animationType);
      return Some(s);
    }

    /** `set_current`: show `index mod len(images)` and highlight its indicator. */
    method SetCurrent(index: int)
      requires Valid()
      modifies this, buttons
      ensures Valid() && Highlighted()
      ensures currentIndex == FloorMod(index, |images|) && shown == images[currentIndex]
      ensures isRunning == old(isRunning) && autoStarted == old(autoStarted)
      ensures forall i :: 0 <= i < buttons.Length ==>
        buttons[i] == Mark(old(buttons[i]), i == currentIndex, buttonsColour, selectedColour)
    {
      currentIndex := FloorMod(index, |images|);
      shown := images[currentIndex];
      var i := 0;
      while i < buttons.Length
        invariant 0 <= i <= buttons.Length
        invariant forall j :: 0 <= j < i ==>
          buttons[j] == Mark(old(buttons[j]), j == currentIndex, buttonsColour, selectedColour)
        invariant forall j :: i <= j < buttons.Length ==> buttons[j] == old(buttons[j])
        modifies buttons
      {
        buttons[i] := Mark(buttons[i], i == currentIndex, buttonsColour, selectedColour);
        i := i + 1;
      }
    }

    /** `_on_next_click`. */
    method Next()
      requires Valid()
      modifies this, buttons
      ensures Valid() && Highlighted()
      ensures currentIndex == FloorMod(old(currentIndex) + 1, |images|)
      ensures old(currentIndex) == |images| - 1 ==> currentIndex == 0
    {
      if currentIndex == |images| - 1 {
        WrapAround(|images|);
      }
      SetCurrent(currentIndex + 1);
    }

    /** `_on_prev_click`. */
    method Prev()
      requires Valid()
      modifies this, buttons
      ensures Valid() && Highlighted()
      ensures currentIndex == FloorMod(old(currentIndex) - 1, |images|)
      ensures old(currentIndex) == 0 ==> currentIndex == |images| - 1
    {
      if currentIndex == 0 {
        WrapAround(|images|);
      }
      SetCurrent(currentIndex - 1);
    }

    /** `_on_button_click` on indicator `i`: jump to the image it stands for. */
    method IndicatorClick(i: int)
      requires Valid() && 0 <= i < buttons.Length
      modifies this, buttons
      ensures Valid() && Highlighted()
      ensures currentIndex == i
    {
      FloorModInRange(buttons[i].data, |images|);
      SetCurrent(buttons[i].data);
    }

    /** `_on_hover_indicator`: the indicator grows to 125% while hovered. */
    method HoverIndicator(i: int, data: string)
      requires Valid() && 0 <= i < buttons.Length
      modifies buttons
      ensures buttons[i] == old(buttons[i]).(scalePct := if data == "true" then 125 else 100)
      ensures forall j :: 0 <= j < buttons.Length && j != i ==> buttons[j] == old(buttons[j])
      ensures Valid()
    {
      buttons[i] := buttons[i].(scalePct := if data == "true" then 125 else 100);
    }

    /** `did_mount`: show the first image and start auto-play when asked. */
    method DidMount()
      requires Valid()
      modifies this, buttons
      ensures Valid() && Highlighted()
      ensures currentIndex == 0 && isRunning
      ensures autoStarted == (old(autoStarted) || autoPlay)
    {
      SetCurrent(0);
      isRunning := true;
      if autoPlay {
        autoStarted := true;
      }
    }

    /** `will_unmount`: the auto-play loop stops at its next check. */
    method WillUnmount()
      modifies this
      ensures !isRunning
      ensures currentIndex == old(currentIndex) && shown == old(shown) && autoStarted == old(autoStarted)
    {
      isRunning := false;
    }

    /**
     * One tick of `_auto_switch` after its sleep: it stops when the slider
     * is no longer running or has no page, and otherwise advances.
     */
    method AutoStep(hasPage: bool) returns (continues: bool)
      requires Valid()
      modifies this, buttons
      ensures Valid()
      ensures continues <==> old(isRunning) && hasPage
      ensures continues ==> Highlighted() && currentIndex == FloorMod(old(currentIndex) + 1, |images|)
      ensures !continues ==> currentIndex == old(currentIndex) && buttons[..] == old(buttons[..])
    {
      if !hasPage || !isRunning {
        return false;
      }
      Next();
      return true;
    }
  }

  /** After moving the current image, exactly one indicator is at full opacity. */
  lemma OneHighlighted(bs: seq<Indicator>, current: int, colour: string, selectedColour: string)
    requires 0 <= current < |bs|
    requires forall i :: 0 <= i < |bs| ==> bs[i] == Mark(bs[i], i == current, colour, selectedColour)
    ensures forall i :: 0 <= i < |bs| ==> (bs[i].opacityPct == 100 <==> i == current)
    ensures forall i :: 0 <= i < |bs| ==>
      bs[i].bgcolor == (if i == current then selectedColour else colour)
  {
    forall i | 0 <= i < |bs|
      ensures bs[i].opacityPct == 100 <==> i == current
      ensures bs[i].bgcolor == (if i == current then selectedColour else colour)
    {
      assert bs[i] == Mark(bs[i], i == current, colour, selectedColour);
    }
  }
}
