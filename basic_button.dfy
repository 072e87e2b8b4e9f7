/**
 * BasicButton: an elevated button whose text, icon and colours can be
 * changed or toggled between two values, and which grows while hovered.
 *
 * The button style's default background and text colours are kept as
 * their own fields, next to the button's `bgcolor` and `text_color`.
 */
module BasicButton {
  import opened Wrappers

  /** The two-value toggle rule: `b if current == a else a`. */
  function Toggle<T(==)>(current: T, a: T, b: T): (r: T)
    ensures r == a || r == b
    ensures current == a ==> r == b
    ensures current != a ==> r == a
  {
    if current == a then b else a
  }

  /** From either option the toggle goes to the other one, and twice comes back. */
  lemma ToggleAlternates<T>(a: T, b: T)
    requires a != b
    ensures Toggle(a, a, b) == b && Toggle(b, a, b) == a
    ensures Toggle(Toggle(a, a, b), a, b) == a && Toggle(Toggle(b, a, b), a, b) == b
  {
  }

  /**
   * A value outside both options first becomes `a`; from then on the toggle
   * stays within the two options.
   */
  lemma ToggleSettles<T>(x: T, a: T, b: T, n: nat)
    ensures ToggleN(x, a, b, n + 1) == a || ToggleN(x, a, b, n + 1) == b
    ensures x != a && x != b ==> ToggleN(x, a, b, 1) == a
  {
  }

  /** `n` toggles in a row. */
  function ToggleN<T(==)>(x: T, a: T, b: T, n: nat): T
  {
    if n == 0 then x else Toggle(ToggleN(x, a, b, n - 1), a, b)
  }

  /** Starting from `a`, the toggle is at `a` after an even number of steps and at `b` after an odd one. */
  lemma {:induction false} ToggleParity<T>(a: T, b: T, n: nat)
    requires a != b
    ensures ToggleN(a, a, b, n) == (if n % 2 == 0 then a else b)
  {
    if n > 0 {
      ToggleParity(a, b, n - 1);
    }
  }

  class BasicButton {
    var text: string
    var icon: Option<string>
    var iconColour: Option<string>
    var bgcolor: string
    var textColour: string
    /** `style.bgcolor[ControlState.DEFAULT]` */
    var styleBgcolor: string
    /** `style.color[ControlState.DEFAULT]` */
    var styleColour: string
    const hoverScale: real
    var scale: real

    /** The style's default colours follow the button's colours. */
    predicate Valid()
      reads this
    {
      styleBgcolor == bgcolor && styleColour == textColour
    }

    constructor(text: string, bgcolor: string, textColour: string, icon: Option<string>, hoverScale: real)
      ensures Valid()
      ensures this.text == text && this.bgcolor == bgcolor && this.textColour == textColour
      ensures this.icon == icon && iconColour.None? && this.hoverScale == hoverScale && scale == 1.0
    {
      this.text := text;
      this.icon := icon;
      iconColour := None;
      this.bgcolor := bgcolor;
      this.textColour := textColour;
      styleBgcolor := bgcolor;
      styleColour := textColour;
      this.hoverScale := hoverScale;
      scale := 1.0;
    }

    /** The hover branch of `__animate__`: `hover_scale` while the pointer is over the button. */
    method OnHover(data: string)
      modifies this
      ensures scale == (if data == "true" then hoverScale else 1.0)
      ensures text == old(text) && icon == old(icon) && iconColour == old(iconColour)
      ensures bgcolor == old(bgcolor) && textColour == old(textColour)
      ensures styleBgcolor == old(styleBgcolor) && styleColour == old(styleColour)
    {
      scale := if data == "true" then hoverScale else 1.0;
    }

    /** `set_button_text`: an empty text is ignored. */
    method SetButtonText(t: string)
      modifies this
      ensures text == (if t != "" then t else old(text))
      ensures icon == old(icon) && iconColour == old(iconColour) && scale == old(scale)
      ensures bgcolor == old(bgcolor) && textColour == old(textColour)
      ensures styleBgcolor == old(styleBgcolor) && styleColour == old(styleColour)
    {
      if t != "" {
        text := t;
      }
    }

    /** `set_icon`: the icon is always replaced, the colour only by a non-empty one. */
    method SetIcon(newIcon: Option<string>, colour: Option<string>)
      modifies this
      ensures icon == newIcon
      ensures iconColour == (if colour.Some? && colour.value != "" then colour else old(iconColour))
      ensures text == old(text) && scale == old(scale)
      ensures bgcolor == old(bgcolor) && textColour == old(textColour)
      ensures styleBgcolor == old(styleBgcolor) && styleColour == old(styleColour)
    {
      icon := newIcon;
      if colour.Some? && colour.value != "" {
        iconColour := colour;
      }
    }

    /** `toggle_icon`: `icon2` if the icon is `icon1`, else `icon1`. */
    method ToggleIcon(icon1: string, icon2: string)
      modifies this
      ensures icon == Toggle(old(icon), Some(icon1), Some(icon2))
      ensures text == old(text) && iconColour == old(iconColour) && scale == old(scale)
      ensures bgcolor == old(bgcolor) && textColour == old(textColour)
      ensures styleBgcolor == old(styleBgcolor) && styleColour == old(styleColour)
    {
      icon := if icon == Some(icon1) then Some(icon2) else Some(icon1);
    }

    /** `toggle_color`: toggles the background and keeps the style's default background equal to it. */
    method ToggleColour(colour1: string, colour2: string)
      requires Valid()
      modifies this
      ensures Valid()
      ensures bgcolor == Toggle(old(bgcolor), colour1, colour2)
      ensures text == old(text) && icon == old(icon) && iconColour == old(iconColour)
      ensures textColour == old(textColour) && scale == old(scale)
    {
      bgcolor := if bgcolor == colour1 then colour2 else colour1;
      styleBgcolor := bgcolor;
    }

    /** `toggle_text_color`: toggles the text colour and keeps the style's default colour equal to it. */
    method ToggleTextColour(colour1: string, colour2: string)
      requires Valid()
      modifies this
      ensures Valid()
      ensures textColour == Toggle(old(textColour), colour1, colour2)
      ensures text == old(text) && icon == old(icon) && iconColour == old(iconColour)
      ensures bgcolor == old(bgcolor) && scale == old(scale)
    {
      textColour := if textColour == colour1 then colour2 else colour1;
      styleColour := textColour;
    }

    /** Toggling the icon twice from `icon1` gives `icon1` back. */
    method ToggleIconTwice(icon1: string, icon2: string)
      requires icon == Some(icon1)
      modifies this
      ensures icon == Some(icon1)
    {
      ToggleIcon(icon1, icon2);
      ToggleIcon(icon1, icon2);
    }
  }
}
