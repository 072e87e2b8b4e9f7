/**
 * AnimatedLists: an unordered and an ordered list view. Each wraps its
 * items in `ListItem` rows that carry their position as `index` and show
 * either a bullet icon (unordered list) or the index (ordered list), and
 * that grow from scale 0 to 1 once mounted.
 *
 * Which kind of list a row sits in is read from its parent's `data` tag.
 */
module AnimatedLists {

  const UnorderedTag: string := "unordened-list"
  const OrderedTag: string := "ordened-list"

  /** A control placed in a list: any other widget, or a `ListItem` row itself. */
  datatype Control = Widget(id: nat) | Row(item: ListItem)

  class ListItem {
    const index: int
    /** The wrapped control, shown after the icon and the index text. */
    const content: Control
    const colour: string
    /** Visibility of the bullet icon (`controls[0]`). */
    var iconVisible: bool
    /** Visibility of the index text (`controls[1]`). */
    var indexVisible: bool
    /** The row's scale; 0 until its appearance animation ran. */
    var scale: nat

    constructor(index: int, content: Control, colour: string)
      ensures this.index == index && this.content == content && this.colour == colour
      ensures iconVisible && indexVisible && scale == 0
    {
      this.index := index;
      this.content := content;
      this.colour := colour;
      iconVisible := true;
      indexVisible := true;
      scale := 0;
    }

    /** `did_mount` inside a list tagged `parentData`: show the icon or the index, not both. */
    method DidMount(parentData: string)
      modifies this
      ensures iconVisible <==> parentData != OrderedTag
      ensures indexVisible <==> parentData == OrderedTag
      ensures iconVisible != indexVisible
      ensures scale == old(scale)
    {
      iconVisible := parentData != OrderedTag;
      indexVisible := parentData == OrderedTag;
    }

    /** `_animate_did_mount` after its delay: the row appears. */
    method AnimateDidMount()
      modifies this
      ensures scale == 1
      ensures iconVisible == old(iconVisible) && indexVisible == old(indexVisible)
    {
      scale := 1;
    }
  }

  /** `controls[i]` is a fresh row wrapping `items[i]` at index `i`. */
  predicate Wraps(items: seq<Control>, controls: seq<ListItem>)
  {
    |controls| == |items| &&
    forall i :: 0 <= i < |items| ==> controls[i].index == i && controls[i].content == items[i]
  }

  /** Row `i` shows index `i`. */
  predicate IndexIsPosition(controls: seq<ListItem>)
  {
    forall i :: 0 <= i < |controls| ==> controls[i].index == i
  }

  /** Wrapping one more item keeps the rows in step with the items. */
  lemma WrapsSnoc(items: seq<Control>, controls: seq<ListItem>, item: Control, row: ListItem)
    requires Wraps(items, controls)
    requires row.index == |items| && row.content == item
    ensures Wraps(items + [item], controls + [row])
    ensures IndexIsPosition(controls + [row])
  {
    var items', controls' := items + [item], controls + [row];
    forall i | 0 <= i < |items'|
      ensures controls'[i].index == i && controls'[i].content == items'[i]
    {
      if i < |items| {
        assert controls'[i] == controls[i] && items'[i] == items[i];
      }
    }
  }

  /** The loop shared by both lists' `_build_list`: one new row per item, in order. */
  method BuildRows(items: seq<Control>, colour: string) returns (controls: seq<ListItem>)
    ensures Wraps(items, controls)
    ensures forall i :: 0 <= i < |controls| ==> fresh(controls[i]) && controls[i].colour == colour
    ensures forall i :: 0 <= i < |controls| ==>
      controls[i].iconVisible && controls[i].indexVisible && controls[i].scale == 0
  {
    controls := [];
    var i := 0;
    while i < |items|
      invariant 0 <= i <= |items|
      invariant Wraps(items[..i], controls)
      invariant forall j :: 0 <= j < |controls| ==> fresh(controls[j]) && controls[j].colour == colour
      invariant forall j :: 0 <= j < |controls| ==>
        controls[j].iconVisible && controls[j].indexVisible && controls[j].scale == 0
    {
      var row := new ListItem(i, items[i], colour);
      assert items[..i + 1] == items[..i] + [items[i]];
      WrapsSnoc(items[..i], controls, items[i], row);
      controls := controls + [row];
      i := i + 1;
    }
    assert items[..|items|] == items;
  }

  /** The framework mounting every row of a list tagged `parentData`. */
  method MountRows(controls: seq<ListItem>, parentData: string)
    modifies set i | 0 <= i < |controls| :: controls[i]
    ensures forall i :: 0 <= i < |controls| ==>
      (controls[i].iconVisible <==> parentData != OrderedTag) &&
      (controls[i].indexVisible <==> parentData == OrderedTag)
  {
    var i := 0;
    while i < |controls|
      invariant 0 <= i <= |controls|
      invariant forall j :: 0 <= j < i ==>
        (controls[j].iconVisible <==> parentData != OrderedTag) &&
        (controls[j].indexVisible <==> parentData == OrderedTag)
    {
      controls[i].DidMount(parentData);
      i := i + 1;
    }
  }

  class UnorderedList {
    const data: string
    const itemColour: string
    var items: seq<Control>
    var controls: seq<ListItem>

    predicate Valid()
      reads this
    {
      data == UnorderedTag && Wraps(items, controls)
    }

    constructor(items: seq<Control>, itemColour: string)
      ensures Valid() && this.items == items && this.itemColour == itemColour
      ensures forall i :: 0 <= i < |controls| ==> fresh(controls[i]) && controls[i].colour == itemColour
    {
      data := UnorderedTag;
      this.itemColour := itemColour;
      this.items := items;
      controls := [];
      new;
      BuildList();
    }

    /** `_build_list`: replace the rows by one new row per item. */
    method BuildList()
      requires data == UnorderedTag
      modifies this
      ensures Valid() && items == old(items)
      ensures forall i :: 0 <= i < |controls| ==> fresh(controls[i]) && controls[i].colour == itemColour
    {
      controls := BuildRows(items, itemColour);
    }

    /** `add_item`: append the item and a new row for it at index `len(items)`. */
    method AddItem(item: Control) returns (row: ListItem)
      requires Valid()
      modifies this
      ensures Valid() && IndexIsPosition(controls)
      ensures items == old(items) + [item]
      ensures controls == old(controls) + [row]
      ensures fresh(row) && row.index == |old(items)| && row.content == item && row.scale == 0
    {
      row := new ListItem(|items|, item, itemColour);
      WrapsSnoc(items, controls, item, row);
      items := items + [item];
      controls := controls + [row];
    }
  }

  class OrdenedList {
    const data: string
    const itemColour: string
    var items: seq<Control>
    var controls: seq<ListItem>

    /**
     * One row per item: either a row wrapping it at its position, or, for
     * a `ListItem` added later, that row itself.
     */
    predicate Valid()
      reads this
    {
      data == OrderedTag && |controls| == |items| &&
      forall i :: 0 <= i < |items| ==>
        (controls[i].index == i && controls[i].content == items[i]) ||
        (items[i].Row? && controls[i] == items[i].item)
    }

    constructor(items: seq<Control>, itemColour: string)
      ensures Valid() && Wraps(this.items, controls) && this.items == items
      ensures this.itemColour == itemColour
      ensures forall i :: 0 <= i < |controls| ==> fresh(controls[i]) && controls[i].colour == itemColour
    {
      data := OrderedTag;
      this.itemColour := itemColour;
      this.items := items;
      controls := [];
      new;
      BuildList();
    }

    /** `_build_list`: every item is wrapped, `ListItem`s included. */
    method BuildList()
      requires data == OrderedTag
      modifies this
      ensures Valid() && Wraps(items, controls) && items == old(items)
      ensures forall i :: 0 <= i < |controls| ==> fresh(controls[i]) && controls[i].colour == itemColour
    {
      controls := BuildRows(items, itemColour);
    }

    /**
     * `add_item`: a `ListItem` is appended as it is, keeping its own index;
     * any other control gets a new row at index `len(items)`.
     */
    method AddItem(item: Control) returns (row: ListItem)
      requires Valid()
      modifies this
      ensures Valid()
      ensures items == old(items) + [item]
      ensures controls == old(controls) + [row]
      ensures item.Row? ==> row == item.item
      ensures !item.Row? ==> fresh(row) && row.index == |old(items)| && row.content == item
      ensures IndexIsPosition(old(controls)) ==>
        (IndexIsPosition(controls) <==> row.index == |old(items)|)
    {
      if item.Row? {
        row := item.item;
      } else {
        row := new ListItem(|items|, item, itemColour);
      }
      var n := |items|;
      items := items + [item];
      controls := controls + [row];
      assert controls[n] == row && items[n] == item;
      assert forall i :: 0 <= i < n ==> controls[i] == old(controls)[i] && items[i] == old(items)[i];
    }
  }

  /**
   * Adding an existing row to an ordered list keeps that row's index, so
   * the shown numbering no longer follows the positions.
   */
  method AddingARowKeepsItsIndex() returns (list: OrdenedList, row: ListItem)
    ensures |list.controls| == 1 && list.controls[0] == row
    ensures row.index == 5 && !IndexIsPosition(list.controls)
  {
    list := new OrdenedList([], "amber");
    row := new ListItem(5, Widget(0), "amber");
    var added := list.AddItem(Row(row));
    assert list.controls[0].index == 5;
  }
}
