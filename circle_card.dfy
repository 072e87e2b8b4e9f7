/**
 * CircleCard: a card that toggles on click between a collapsed circle
 * showing only its icon and an expanded card that also shows its title,
 * a divider and its content, then calls an optional external callback.
 *
 * The border width is kept in tenths (0.5 is 5).
 */
module CircleCard {
  import opened Wrappers

  datatype PyError = AttributeError

  /**
   * The constructor as written: it sets `visible` on the content and then
   * on the title before the `title is not None` test, so a missing content
   * or title raises AttributeError. On success it yields whether the
   * header row holds the title.
   */
  function BuildAsWritten(hasTitle: bool, hasContent: bool): (r: Result<bool, PyError>)
    ensures r.Ok? <==> hasTitle && hasContent
    ensures r.Ok? ==> r.value
  {
    if !hasContent then Err(AttributeError)
    else if !hasTitle then Err(AttributeError)
    else Ok(hasTitle)
  }

  /** The defaults (`title=None`, `content=None`) raise, and an icon-only header is never built. */
  lemma DefaultCardRaises()
    ensures BuildAsWritten(false, false) == Err(AttributeError)
    ensures BuildAsWritten(false, true) == Err(AttributeError)
    ensures forall t, c :: BuildAsWritten(t, c).Ok? ==> BuildAsWritten(t, c).value
  {
  }

  class CircleCard {
    const expandedWidth: int
    const expandedHeight: int
    const collapsedWidth: int
    const hasTitle: bool
    const hasContent: bool
    const hasCallback: bool
    /** Whether the header row shows the title after the icon. */
    const headerHasTitle: bool
    var isOpen: bool
    var width: int
    var height: int
    var radius: int
    var borderTenths: nat
    var contentVisible: bool
    var dividerVisible: bool
    var titleVisible: bool
    /** The `is_open` value each external-callback call saw, oldest first. */
    var callbackSaw: seq<bool>

    /** The collapsed look. */
    predicate Closed()
      reads this
    {
      width == collapsedWidth && height == 60 && radius == 100 && borderTenths == 5 &&
      !contentVisible && !dividerVisible && !titleVisible
    }

    /** The expanded look; parts the card does not have stay hidden. */
    predicate Opened()
      reads this
    {
      width == expandedWidth && height == expandedHeight && radius == 20 && borderTenths == 10 &&
      contentVisible == hasContent && dividerVisible && titleVisible == hasTitle
    }

    /** The look always matches `is_open`. */
    predicate Valid()
      reads this
    {
      (isOpen ==> Opened()) && (!isOpen ==> Closed()) && headerHasTitle == hasTitle
    }

    /**
     * The constructor with an optional title and content, as its defaults
     * and its `title is not None` test intend: it starts closed.
     */
    constructor(hasTitle: bool, hasContent: bool, expandedWidth: int, expandedHeight: int,
                collapsedWidth: int, hasCallback: bool)
      ensures Valid() && !isOpen && Closed() && callbackSaw == []
      ensures headerHasTitle == hasTitle
      ensures this.hasTitle == hasTitle && this.hasContent == hasContent && this.hasCallback == hasCallback
      ensures this.expandedWidth == expandedWidth && this.expandedHeight == expandedHeight
      ensures this.collapsedWidth == collapsedWidth
    {
      this.expandedWidth := expandedWidth;
      this.expandedHeight := expandedHeight;
      this.collapsedWidth := collapsedWidth;
      this.hasTitle := hasTitle;
      this.hasContent := hasContent;
      this.hasCallback := hasCallback;
      headerHasTitle := hasTitle;
      isOpen := false;
      width := collapsedWidth;
      height := 60;
      radius := 100;
      borderTenths := 5;
      contentVisible := false;
      dividerVisible := false;
      titleVisible := false;
      callbackSaw := [];
    }

    /** `_handle_click`: flip `is_open`, apply its look, then call the callback. */
    method HandleClick()
      requires Valid()
      modifies this
      ensures Valid()
      ensures isOpen == !old(isOpen)
      ensures isOpen ==> Opened()
      ensures !isOpen ==> Closed()
      ensures callbackSaw == old(callbackSaw) + (if hasCallback then [isOpen] else [])
    {
      isOpen := !isOpen;
      if isOpen {
        width := expandedWidth;
        contentVisible := hasContent;
        radius := 20;
        height := expandedHeight;
        borderTenths := 10;
        dividerVisible := true;
        titleVisible := hasTitle;
      } else {
        width := collapsedWidth;
        contentVisible := false;
        radius := 100;
        height := 60;
        borderTenths := 5;
        dividerVisible := false;
        titleVisible := false;
      }
      if hasCallback {
        callbackSaw := callbackSaw + [isOpen];
      }
    }

    /** Two clicks bring back every visible property. */
    method ClickTwice()
      requires Valid()
      modifies this
      ensures Valid()
      ensures isOpen == old(isOpen) && width == old(width) && height == old(height)
      ensures radius == old(radius) && borderTenths == old(borderTenths)
      ensures contentVisible == old(contentVisible) && dividerVisible == old(dividerVisible)
      ensures titleVisible == old(titleVisible)
      ensures callbackSaw == old(callbackSaw) + (if hasCallback then [!old(isOpen), old(isOpen)] else [])
    {
      HandleClick();
      HandleClick();
    }
  }
}
