/** `UIListItem<T>`: a menu item that cycles through a list of values with the
    left and right keys. The values are modelled by their `ToString()` texts. */
module ListItem {
  import opened Common
  import opened Cursor

  /** `SelectedText`: the empty string for an empty list, otherwise the text of
      the selected entry; `None` where the getter throws because the selected
      index is not a valid index of a non-empty list. */
  function SelectedText(items: seq<string>, selected: int): (r: Option<string>)
    ensures items == [] ==> r == Some("")
    ensures items != [] && 0 <= selected < |items| ==> r == Some(items[selected])
    ensures r.None? <==> items != [] && !(0 <= selected < |items|)
  {
    if |items| == 0 then Some("")
    else if 0 <= selected < |items| then Some(items[selected])
    else None
  }

  /** The selected index is one `SelectedText` can read. */
  predicate ValidSelection(items: seq<string>, selected: int) {
    items == [] || 0 <= selected < |items|
  }

  /** The selection after a key press on an enabled item: the left key steps
      back, then the right key steps forward; an empty list never moves. */
  function KeyCursor(selected: int, key: Key, options: MenuOptions, count: nat): int {
    var afterLeft := if key == options.navigateLeft && count != 0 then Prev(selected, count) else selected;
    if key == options.navigateRight && count != 0 then Next(afterLeft, count) else afterLeft
  }

  /** The events of a key press on an enabled item with a valid selection: the
      click for the accept key, then one `SelectedItemChanged` per step, each
      with the new index and its text. */
  function KeyEvents(items: seq<string>, selected: int, key: Key, options: MenuOptions, hasOnClick: bool): seq<ItemEvent>
    requires ValidSelection(items, selected)
  {
    var n := |items|;
    var click := if key == options.acceptKey && hasOnClick then [Click] else [];
    var afterLeft := if key == options.navigateLeft && n != 0 then Prev(selected, n) else selected;
    var left := if key == options.navigateLeft && n != 0 then [SelectedItemChanged(afterLeft, items[afterLeft])] else [];
    var afterRight := if key == options.navigateRight && n != 0 then Next(afterLeft, n) else afterLeft;
    var right := if key == options.navigateRight && n != 0 then [SelectedItemChanged(afterRight, items[afterRight])] else [];
    click + left + right
  }

  /** A key press keeps a valid selection valid, and every `SelectedItemChanged`
      it raises names a valid index and the text stored there. */
  lemma KeyPressKeepsSelection(items: seq<string>, selected: int, key: Key, options: MenuOptions, hasOnClick: bool)
    requires ValidSelection(items, selected)
    ensures ValidSelection(items, KeyCursor(selected, key, options, |items|))
    ensures forall e :: e in KeyEvents(items, selected, key, options, hasOnClick) && e.SelectedItemChanged? ==>
      0 <= e.index < |items| && e.text == items[e.index]
    ensures items == [] ==> KeyCursor(selected, key, options, |items|) == selected
    ensures items == [] ==> KeyEvents(items, selected, key, options, hasOnClick) == (if key == options.acceptKey && hasOnClick then [Click] else [])
  {
  }

  /** Pressing right then left, or left then right, restores the selection. */
  lemma KeyCursorRoundTrip(items: seq<string>, selected: int, options: MenuOptions)
    requires ValidSelection(items, selected)
    requires options.navigateLeft != options.navigateRight
    ensures KeyCursor(KeyCursor(selected, options.navigateLeft, options, |items|), options.navigateRight, options, |items|) == selected
    ensures KeyCursor(KeyCursor(selected, options.navigateRight, options, |items|), options.navigateLeft, options, |items|) == selected
  {
    if items != [] {
      NextAfterPrev(selected, |items|);
      PrevAfterNext(selected, |items|);
    }
  }

  class UIListItem {
    var tag: Option<string>
    var isEnabled: bool
    var hasOnClick: bool
    /** `Items`, each entry by its `ToString()`. */
    var items: seq<string>
    var selectedIndex: int
    /** The `OnClick` runs and `SelectedItemChanged` events, oldest first. */
    var trace: seq<ItemEvent>

    /** The constructors: `enabled` is `None` for the ones without an
        `enabled` parameter (default `true`), `initial` is `None` for a null
        array, which gives an empty list. */
    constructor(tag: Option<string>, enabled: Option<bool>, hasOnClick: bool, initial: Option<seq<string>>)
      ensures this.tag == tag && isEnabled == (if enabled.None? then true else enabled.value)
      ensures this.hasOnClick == hasOnClick
      ensures items == (if initial.None? then [] else initial.value)
      ensures selectedIndex == 0 && trace == []
      ensures ValidSelection(items, selectedIndex)
    {
      this.tag := tag;
      isEnabled := if enabled.None? then true else enabled.value;
      this.hasOnClick := hasOnClick;
      items := if initial.None? then [] else initial.value;
      selectedIndex := 0;
      trace := [];
    }

    /** Steps the selection back, wrapping from the first entry to the last,
        and raises `SelectedItemChanged` with the new index and its text. An
        empty list is left alone. `ok` is false when `SelectedText` throws
        after the step, which takes an invalid selection to begin with. */
    method NavigateLeft() returns (ok: bool)
      modifies this
      ensures items == old(items) && tag == old(tag) && isEnabled == old(isEnabled) && hasOnClick == old(hasOnClick)
      ensures items == [] ==> ok && selectedIndex == old(selectedIndex) && trace == old(trace)
      ensures items != [] ==> selectedIndex == Prev(old(selectedIndex), |items|)
      ensures ok ==> ValidSelection(items, selectedIndex)
      ensures items != [] && ok ==> trace == old(trace) + [SelectedItemChanged(selectedIndex, items[selectedIndex])]
      ensures !ok ==> trace == old(trace) && !ValidSelection(items, selectedIndex) && !old(ValidSelection(items, selectedIndex))
      ensures old(ValidSelection(items, selectedIndex)) ==> ok && ValidSelection(items, selectedIndex)
    {
      ok := true;
      if |items| != 0 {
        if selectedIndex == 0 {
          selectedIndex := |items| - 1;
        } else {
          selectedIndex := selectedIndex - 1;
        }
        var text := SelectedText(items, selectedIndex);
        if text.None? {
          return false;
        }
        trace := trace + [SelectedItemChanged(selectedIndex, text.value)];
      }
    }

    /** Steps the selection forward, wrapping from the last entry to the
        first; otherwise as `NavigateLeft`. */
    method NavigateRight() returns (ok: bool)
      modifies this
      ensures items == old(items) && tag == old(tag) && isEnabled == old(isEnabled) && hasOnClick == old(hasOnClick)
      ensures items == [] ==> ok && selectedIndex == old(selectedIndex) && trace == old(trace)
      ensures items != [] ==> selectedIndex == Next(old(selectedIndex), |items|)
      ensures ok ==> ValidSelection(items, selectedIndex)
      ensures items != [] && ok ==> trace == old(trace) + [SelectedItemChanged(selectedIndex, items[selectedIndex])]
      ensures !ok ==> trace == old(trace) && !ValidSelection(items, selectedIndex) && !old(ValidSelection(items, selectedIndex))
      ensures old(ValidSelection(items, selectedIndex)) ==> ok && ValidSelection(items, selectedIndex)
    {
      ok := true;
      if |items| != 0 {
        if selectedIndex == |items| - 1 {
          selectedIndex := 0;
        } else {
          selectedIndex := selectedIndex + 1;
        }
        var text := SelectedText(items, selectedIndex);
        if text.None? {
          return false;
        }
        trace := trace + [SelectedItemChanged(selectedIndex, text.value)];
      }
    }

    /** A key press: a disabled item ignores it; an enabled one runs `OnClick`
        for the accept key, navigates left for the left key and then right
        for the right key. `ok` is false when a step throws, which stops the
        press there. */
    method KeyPress(key: Key, options: MenuOptions) returns (ok: bool)
      modifies this
      ensures items == old(items) && tag == old(tag) && isEnabled == old(isEnabled) && hasOnClick == old(hasOnClick)
      ensures !isEnabled ==> ok && selectedIndex == old(selectedIndex) && trace == old(trace)
      ensures isEnabled && old(ValidSelection(items, selectedIndex)) ==>
        ok && ValidSelection(items, selectedIndex) &&
        selectedIndex == KeyCursor(old(selectedIndex), key, options, |items|) &&
        trace == old(trace) + KeyEvents(items, old(selectedIndex), key, options, hasOnClick)
      ensures !ok ==> !old(ValidSelection(items, selectedIndex))
    {
      ok := true;
      if !isEnabled {
        return;
      }
      if key == options.acceptKey && hasOnClick {
        trace := trace + [Click];
      }
      if key == options.navigateLeft {
        ok := NavigateLeft();
      }
      if key == options.navigateRight && ok {
        ok := NavigateRight();
      }
    }

    /** Resets the selection and empties the list. */
    method Cleanup()
      modifies this
      ensures selectedIndex == 0 && items == []
      ensures tag == old(tag) && isEnabled == old(isEnabled) && hasOnClick == old(hasOnClick) && trace == old(trace)
      ensures ValidSelection(items, selectedIndex)
    {
      selectedIndex := 0;
      items := [];
    }
  }
}
