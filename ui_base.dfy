/** `UIBase`: the state every top-level element (menu, button, progress bar,
    text list) shares — position, visibility, focus and a tag — and the two
    setters that change visibility and focus and raise their events. */
module Widgets {
  import opened Common

  /** The exact runtime type of an element, which `GetType()` compares. */
  datatype WidgetType = MenuWidget | ButtonWidget | ProgressBarWidget | ListWidget

  /** An invocation of `FocusChanged` or `VisibilityChanged`, with the value it
      passes to its subscribers. */
  datatype BaseEvent = FocusChanged(focused: bool) | VisibilityChanged(visible: bool)

  class UIBase {
    const widgetType: WidgetType
    var position: Point
    var isVisible: bool
    var hasFocus: bool
    /** The tag's `ToString()`, or `None` for a null tag. */
    var tag: Option<string>
    /** Every event raised so far, oldest first. */
    var raised: seq<BaseEvent>

    /** The part of a derived constructor that sets up the base: the element
        starts unfocused, untagged, with no events raised. */
    constructor(widgetType: WidgetType, position: Point, isVisible: bool)
      ensures this.widgetType == widgetType && this.position == position
      ensures this.isVisible == isVisible && !hasFocus
      ensures tag == None && raised == []
    {
      this.widgetType := widgetType;
      this.position := position;
      this.isVisible := isVisible;
      hasFocus := false;
      tag := None;
      raised := [];
    }

    /** Sets `HasFocus` and raises `FocusChanged` with the new value, even when
        the focus was already that value. */
    method SetFocus(focused: bool)
      modifies this
      ensures hasFocus == focused
      ensures isVisible == old(isVisible) && position == old(position) && tag == old(tag)
      ensures raised == old(raised) + [FocusChanged(focused)]
    {
      hasFocus := focused;
      raised := raised + [FocusChanged(hasFocus)];
    }

    /** Sets `IsVisible` and raises `VisibilityChanged` with the new value, even
        when the visibility was already that value. */
    method SetVisibility(visible: bool)
      modifies this
      ensures isVisible == visible
      ensures hasFocus == old(hasFocus) && position == old(position) && tag == old(tag)
      ensures raised == old(raised) + [VisibilityChanged(visible)]
    {
      isVisible := visible;
      raised := raised + [VisibilityChanged(isVisible)];
    }
  }

  /** Setting the focus twice to the same value leaves the same state as setting
      it once, but raises the event twice. */
  method SetFocusTwice(e: UIBase, focused: bool)
    modifies e
    ensures e.hasFocus == focused && e.isVisible == old(e.isVisible)
    ensures e.raised == old(e.raised) + [FocusChanged(focused), FocusChanged(focused)]
  {
    e.SetFocus(focused);
    e.SetFocus(focused);
  }

  /** The same for the visibility. */
  method SetVisibilityTwice(e: UIBase, visible: bool)
    modifies e
    ensures e.isVisible == visible && e.hasFocus == old(e.hasFocus)
    ensures e.raised == old(e.raised) + [VisibilityChanged(visible), VisibilityChanged(visible)]
  {
    e.SetVisibility(visible);
    e.SetVisibility(visible);
  }
}
