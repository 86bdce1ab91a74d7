/** `UIMenu`: a titled list of items with a selection cursor that wraps at both
    ends and a scrolling window `[ViewRangeStart, ViewRangeEnd)` over the items,
    at most `MaxItemsVisibleAtOnce` wide. */
module Menu {
  import opened Common
  import opened Cursor
  import opened Widgets
  import opened SubtitleItem

  /** What the menu reads and writes of each of its items: the tag (its
      `ToString()`, `None` for a null tag) and the `IsSelected` flag. */
  datatype MenuEntry = MenuEntry(tag: Option<string>, isSelected: bool)

  /** The selection and the view range. */
  datatype View = View(selected: int, start: int, end: int)

  /** The default window width, also used when a width below 2 is asked for. */
  const DefaultMaxItemsVisible: int := 6

  // ---------------------------------------------------------------------------
  // Navigation as written

  /** `NavigateUp` on a menu of `count` items whose window is `max` wide. */
  function NavigateUpView(v: View, count: nat, max: int): View {
    if count == 0 then v
    else if v.selected == 0 then View(count - 1, (count - 1) - (max - 1), count)
    else if v.selected - 1 < v.start then View(v.selected - 1, v.start - 1, v.end - 1)
    else View(v.selected - 1, v.start, v.end)
  }

  /** `NavigateDown` on a menu of `count` items whose window is `max` wide. */
  function NavigateDownView(v: View, count: nat, max: int): View {
    if count == 0 then v
    else if v.selected == count - 1 then View(0, 0, max)
    else if v.selected + 1 >= v.end then View(v.selected + 1, v.start + 1, v.end + 1)
    else View(v.selected + 1, v.start, v.end)
  }

  /** The stored width for a requested `MaxItemsVisibleAtOnce`. */
  function MaxItemsFor(value: int): (m: int)
    ensures m >= 2
    ensures value >= 2 ==> m == value
    ensures value < 2 ==> m == DefaultMaxItemsVisible
  {
    if value < 2 then DefaultMaxItemsVisible else value
  }

  /** The view after the `MaxItemsVisibleAtOnce` setter: the end of the window
      moves to the new width, the start and the selection stay. */
  function ResizeView(v: View, value: int): View {
    View(v.selected, v.start, MaxItemsFor(value))
  }

  /** Navigating an empty menu changes nothing. */
  lemma NavigateEmpty(v: View, max: int)
    ensures NavigateUpView(v, 0, max) == v && NavigateDownView(v, 0, max) == v
  {
  }

  /** Both steps move the selection along the wrap-around cursor, keep a valid
      selection valid, and either keep the window's width or reset it to `max`. */
  lemma NavigateMovesCursor(v: View, count: nat, max: int)
    requires count > 0
    ensures NavigateUpView(v, count, max).selected == Prev(v.selected, count)
    ensures NavigateDownView(v, count, max).selected == Next(v.selected, count)
    ensures 0 <= v.selected < count ==> 0 <= NavigateUpView(v, count, max).selected < count
    ensures 0 <= v.selected < count ==> 0 <= NavigateDownView(v, count, max).selected < count
    ensures var u := NavigateUpView(v, count, max); u.end - u.start == v.end - v.start || u.end - u.start == max
    ensures var d := NavigateDownView(v, count, max); d.end - d.start == v.end - v.start || d.end - d.start == max
  {
  }

  /** The window covers the selection, lies inside the items and is exactly
      `max` wide. */
  predicate InWindow(v: View, count: nat, max: int) {
    0 <= v.start <= v.selected < v.end <= count && v.end - v.start == max
  }

  /** On a menu with at least `max` items, both steps keep the selection inside
      a full-width window that lies inside the items. */
  lemma NavigateKeepsWindow(v: View, count: nat, max: int)
    requires count >= max
    requires InWindow(v, count, max)
    ensures InWindow(NavigateUpView(v, count, max), count, max)
    ensures InWindow(NavigateDownView(v, count, max), count, max)
  {
  }

  /** Down after up restores the selection of a non-empty menu, and so does up
      after down. */
  lemma NavigateRoundTrip(v: View, count: nat, max: int)
    requires 0 <= v.selected < count
    ensures NavigateDownView(NavigateUpView(v, count, max), count, max).selected == v.selected
    ensures NavigateUpView(NavigateDownView(v, count, max), count, max).selected == v.selected
  {
    NavigateMovesCursor(v, count, max);
    NavigateMovesCursor(NavigateUpView(v, count, max), count, max);
    NavigateMovesCursor(NavigateDownView(v, count, max), count, max);
    NextAfterPrev(v.selected, count);
    PrevAfterNext(v.selected, count);
  }

  // ---------------------------------------------------------------------------
  // The indices `Draw` reads

  /** The integers `a`, `a + 1`, ..., `b - 1`. */
  function Range(a: int, b: int): (r: seq<int>)
    ensures |r| == if a < b then b - a else 0
    ensures forall k :: 0 <= k < |r| ==> r[k] == a + k
    decreases b - a
  {
    if a < b then [a] + Range(a + 1, b) else []
  }

  /** The first and one past the last index `Draw` visits on a non-empty menu:
      every item when there are fewer than `max`, else the view range. */
  function WindowBounds(v: View, count: nat, max: int): (int, int) {
    if count < max then (0, count) else (v.start, v.end)
  }

  /** The item indices `Draw` visits, in order. */
  function WindowIndices(v: View, count: nat, max: int): seq<int> {
    if count == 0 then [] else Range(WindowBounds(v, count, max).0, WindowBounds(v, count, max).1)
  }

  /** Every index `Draw` visits is a valid item index. */
  predicate IndicesInRange(v: View, count: nat, max: int) {
    forall k :: 0 <= k < |WindowIndices(v, count, max)| ==> 0 <= WindowIndices(v, count, max)[k] < count
  }

  /** An invariant of the view that is enough for `Draw`: the window starts at 0
      or later, ends no later than the larger of the item count and the width,
      and the selection is a valid index, or 0 on an empty menu. */
  predicate SafeView(v: View, count: nat, max: int) {
    max >= 1 && 0 <= v.start && v.end <= (if count < max then max else count) &&
    0 <= v.selected < (if count == 0 then 1 else count)
  }

  lemma SafeViewInRange(v: View, count: nat, max: int)
    requires SafeView(v, count, max)
    ensures IndicesInRange(v, count, max)
  {
  }

  /** A new menu's view is safe for any number of items. */
  lemma InitialViewSafe(count: nat)
    ensures SafeView(View(0, 0, DefaultMaxItemsVisible), count, DefaultMaxItemsVisible)
  {
  }

  /** `NavigateDown` and the width setter keep the view safe, and so does
      adding items to the menu. */
  lemma SafeViewPreserved(v: View, count: nat, max: int, value: int, more: nat)
    requires SafeView(v, count, max)
    ensures SafeView(NavigateDownView(v, count, max), count, max)
    ensures SafeView(ResizeView(v, value), count, MaxItemsFor(value))
    ensures SafeView(v, count + more, max)
  {
  }

  /** A full window is safe. */
  lemma InWindowSafe(v: View, count: nat, max: int)
    requires InWindow(v, count, max)
    ensures SafeView(v, count, max)
  {
  }

  /** As written, wrapping up from the first of three items in a six-wide menu
      moves the window's start to -3; after the width is then set to 2, `Draw`
      reads `Items[-3]`. */
  lemma UpWrapStartsBeforeFirstItem()
    ensures NavigateUpView(View(0, 0, 6), 3, 6) == View(2, -3, 3)
    ensures !SafeView(NavigateUpView(View(0, 0, 6), 3, 6), 3, 6)
    ensures ResizeView(NavigateUpView(View(0, 0, 6), 3, 6), 2) == View(2, -3, 2)
    ensures WindowIndices(View(2, -3, 2), 3, MaxItemsFor(2))[0] == -3
    ensures !IndicesInRange(View(2, -3, 2), 3, MaxItemsFor(2))
  {
    assert WindowIndices(View(2, -3, 2), 3, 2)[0] == -3;
  }

  /** `NavigateUp` with the wrap-around window start clamped at the first item. */
  function NavigateUpViewClamped(v: View, count: nat, max: int): View {
    if count == 0 then v
    else if v.selected == 0 then
      View(count - 1, if count - max < 0 then 0 else count - max, count)
    else if v.selected - 1 < v.start then View(v.selected - 1, v.start - 1, v.end - 1)
    else View(v.selected - 1, v.start, v.end)
  }

  /** The clamped step keeps the view safe, on any number of items. */
  lemma NavigateUpClampedSafe(v: View, count: nat, max: int)
    requires SafeView(v, count, max)
    ensures SafeView(NavigateUpViewClamped(v, count, max), count, max)
  {
  }

  /** The clamp only matters on a menu with fewer items than the width. */
  lemma NavigateUpClampedAgrees(v: View, count: nat, max: int)
    requires count >= max
    ensures NavigateUpViewClamped(v, count, max) == NavigateUpView(v, count, max)
  {
  }

  // ---------------------------------------------------------------------------
  // Queries

  /** The index of the first item whose tag reads `tag`, or `None`; items with a
      null tag never match, and a null `tag` matches no item. */
  function GetItemByThisTag(items: seq<MenuEntry>, tag: Option<string>): (r: Option<nat>)
    ensures tag.None? ==> r.None?
    ensures r.Some? ==> r.value < |items| && items[r.value].tag == tag
    ensures r.Some? ==> forall j :: 0 <= j < r.value ==> items[j].tag != tag
    ensures r.None? && tag.Some? ==> forall j :: 0 <= j < |items| ==> items[j].tag != tag
  {
    if items == [] then None
    else if tag.Some? && items[0].tag == tag then Some(0)
    else match GetItemByThisTag(items[1..], tag)
      case None => None
      case Some(k) => Some(k + 1)
  }

  /** The view after a key press that passed the menu's guards: up navigates
      up, then down navigates down. */
  function KeyPressView(v: View, key: Key, options: MenuOptions, count: nat, max: int): View {
    var afterUp := if key == options.navigateUp then NavigateUpView(v, count, max) else v;
    if key == options.navigateDown then NavigateDownView(afterUp, count, max) else afterUp
  }

  /** Where `KeyPress` sends the key afterwards. */
  datatype Forward = NotForwarded | ForwardedTo(index: nat) | IndexOutOfRange(badIndex: int)

  class UIMenu {
    const base: UIBase
    var options: MenuOptions
    var items: seq<MenuEntry>
    var selectedIndex: int
    var viewRangeStart: int
    var viewRangeEnd: int
    var maxItemsVisibleAtOnce: int
    /** The subtitle row's `SelectedIndex` and `ItemCount`, which its counter shows. */
    var counterSelectedIndex: int
    var counterItemCount: int

    function CurrentView(): View
      reads this
    {
      View(selectedIndex, viewRangeStart, viewRangeEnd)
    }

    /** A new, hidden menu with the given items (none for a null array), the
        first item selected and the default six-wide window. */
    constructor(options: MenuOptions, position: Point, initial: Option<seq<MenuEntry>>)
      ensures fresh(base) && base.widgetType == MenuWidget && base.position == position
      ensures !base.isVisible && !base.hasFocus && base.tag == None && base.raised == []
      ensures this.options == options
      ensures items == (if initial.None? then [] else initial.value)
      ensures CurrentView() == View(0, 0, DefaultMaxItemsVisible)
      ensures maxItemsVisibleAtOnce == DefaultMaxItemsVisible
      ensures counterSelectedIndex == 0 && counterItemCount == 0
    {
      base := new UIBase(MenuWidget, position, false);
      this.options := options;
      items := if initial.None? then [] else initial.value;
      selectedIndex := 0;
      viewRangeStart := 0;
      viewRangeEnd := DefaultMaxItemsVisible;
      maxItemsVisibleAtOnce := DefaultMaxItemsVisible;
      counterSelectedIndex := 0;
      counterItemCount := 0;
    }

    method NavigateUp()
      modifies this
      ensures CurrentView() == NavigateUpView(old(CurrentView()), |items|, maxItemsVisibleAtOnce)
      ensures items == old(items) && maxItemsVisibleAtOnce == old(maxItemsVisibleAtOnce)
      ensures options == old(options)
      ensures counterSelectedIndex == old(counterSelectedIndex) && counterItemCount == old(counterItemCount)
    {
      if |items| != 0 {
        if selectedIndex == 0 {
          selectedIndex := |items| - 1;
          viewRangeStart := (|items| - 1) - (maxItemsVisibleAtOnce - 1);
          viewRangeEnd := |items|;
        } else {
          selectedIndex := selectedIndex - 1;
          if selectedIndex < viewRangeStart {
            viewRangeStart := viewRangeStart - 1;
            viewRangeEnd := viewRangeEnd - 1;
          }
        }
      }
    }

    method NavigateDown()
      modifies this
      ensures CurrentView() == NavigateDownView(old(CurrentView()), |items|, maxItemsVisibleAtOnce)
      ensures items == old(items) && maxItemsVisibleAtOnce == old(maxItemsVisibleAtOnce)
      ensures options == old(options)
      ensures counterSelectedIndex == old(counterSelectedIndex) && counterItemCount == old(counterItemCount)
    {
      if |items| != 0 {
        if selectedIndex == |items| - 1 {
          selectedIndex := 0;
          viewRangeStart := 0;
          viewRangeEnd := maxItemsVisibleAtOnce;
        } else {
          selectedIndex := selectedIndex + 1;
          if selectedIndex >= viewRangeEnd {
            viewRangeStart := viewRangeStart + 1;
            viewRangeEnd := viewRangeEnd + 1;
          }
        }
      }
    }

    /** The `MaxItemsVisibleAtOnce` setter. */
    method SetMaxItemsVisibleAtOnce(value: int)
      modifies this
      ensures maxItemsVisibleAtOnce == MaxItemsFor(value)
      ensures CurrentView() == ResizeView(old(CurrentView()), value)
      ensures items == old(items) && options == old(options)
      ensures counterSelectedIndex == old(counterSelectedIndex) && counterItemCount == old(counterItemCount)
    {
      if value < 2 {
        maxItemsVisibleAtOnce := 6;
        viewRangeEnd := 6;
      } else {
        maxItemsVisibleAtOnce := value;
        viewRangeEnd := value;
      }
    }

    /** Handles a key press (`None` for null event arguments): nothing happens
        unless the menu is visible, focused and has items; otherwise the up and
        down keys navigate and the key goes on to the selected item, which
        fails when the selection is not a valid index. */
    method KeyPress(args: Option<Key>) returns (forward: Forward)
      modifies this
      ensures items == old(items) && maxItemsVisibleAtOnce == old(maxItemsVisibleAtOnce) && options == old(options)
      ensures counterSelectedIndex == old(counterSelectedIndex) && counterItemCount == old(counterItemCount)
      ensures args.None? || !base.isVisible || !base.hasFocus || |items| == 0 ==>
        forward == NotForwarded && CurrentView() == old(CurrentView())
      ensures args.Some? && base.isVisible && base.hasFocus && |items| != 0 ==>
        CurrentView() == KeyPressView(old(CurrentView()), args.value, options, |items|, maxItemsVisibleAtOnce) &&
        forward == (if 0 <= selectedIndex < |items| then ForwardedTo(selectedIndex) else IndexOutOfRange(selectedIndex))
      ensures old(0 <= selectedIndex < |items|) && args.Some? && base.isVisible && base.hasFocus ==>
        forward.ForwardedTo?
    {
      if args.None? || !base.isVisible || !base.hasFocus || |items| == 0 {
        return NotForwarded;
      }
      ghost var v0 := CurrentView();
      if args.value == options.navigateUp {
        NavigateUp();
        NavigateMovesCursor(v0, |items|, maxItemsVisibleAtOnce);
      }
      ghost var v1 := CurrentView();
      if args.value == options.navigateDown {
        NavigateDown();
        NavigateMovesCursor(v1, |items|, maxItemsVisibleAtOnce);
      }
      if 0 <= selectedIndex < |items| {
        forward := ForwardedTo(selectedIndex);
      } else {
        forward := IndexOutOfRange(selectedIndex);
      }
    }

    /** Empties the menu; the selection and the view range are left as they are. */
    method Cleanup()
      modifies this
      ensures items == []
      ensures CurrentView() == old(CurrentView()) && maxItemsVisibleAtOnce == old(maxItemsVisibleAtOnce) && options == old(options)
      ensures counterSelectedIndex == old(counterSelectedIndex) && counterItemCount == old(counterItemCount)
    {
      if |items| == 0 {
        return;
      }
      items := [];
    }

    /** One frame of `Draw` (`hasGraphics` is false for a null graphics
        object). It returns the item indices drawn, in order, and the subtitle
        row's `(SelectedIndex, ItemCount)` each time the row is drawn, whose
        text is `CounterLabel` of them; `fault` is the first index visited that
        is not a valid item index, where the frame stops. Each drawn item's
        `IsSelected` says whether it is the selected one, and the subtitle row is
        given the one-based selection and the item count only after it has been
        drawn with the previous values. */
    method Draw(hasGraphics: bool) returns (drawn: seq<int>, counters: seq<(int, int)>, fault: Option<int>)
      modifies this
      ensures CurrentView() == old(CurrentView()) && maxItemsVisibleAtOnce == old(maxItemsVisibleAtOnce) && options == old(options)
      ensures items == MarkSelected(old(items), selectedIndex, drawn)
      ensures forall k :: 0 <= k < |drawn| ==> 0 <= drawn[k] < |items|
      ensures !hasGraphics || !base.isVisible ==>
        drawn == [] && counters == [] && fault == None &&
        counterSelectedIndex == old(counterSelectedIndex) && counterItemCount == old(counterItemCount)
      ensures hasGraphics && base.isVisible && |items| == 0 ==>
        drawn == [] && fault == None &&
        counters == [(old(counterSelectedIndex), old(counterItemCount))] &&
        counterSelectedIndex == selectedIndex + 1 && counterItemCount == 0
      ensures hasGraphics && base.isVisible && |items| != 0 ==>
        var (lo, hi) := WindowBounds(old(CurrentView()), |items|, maxItemsVisibleAtOnce);
        (fault.None? ==> drawn == Range(lo, hi)) &&
        (fault.Some? ==> lo + |drawn| < hi && fault.value == lo + |drawn| &&
                         drawn == Range(lo, fault.value) && !(0 <= fault.value < |items|))
      ensures hasGraphics && base.isVisible ==>
        (fault.None? <==> IndicesInRange(old(CurrentView()), |items|, maxItemsVisibleAtOnce))
      ensures hasGraphics && base.isVisible && |items| != 0 ==>
        counters == FirstThen((old(counterSelectedIndex), old(counterItemCount)), (selectedIndex + 1, |items|), |drawn|) &&
        counterSelectedIndex == (if |drawn| > 0 then selectedIndex + 1 else old(counterSelectedIndex)) &&
        counterItemCount == (if |drawn| > 0 then |items| else old(counterItemCount))
    {
      drawn, counters, fault := [], [], None;
      if !hasGraphics || !base.isVisible {
        return;
      }
      if |items| == 0 {
        counters := [(counterSelectedIndex, counterItemCount)];
        counterSelectedIndex := selectedIndex + 1;
        counterItemCount := |items|;
        return;
      }
      ghost var v := CurrentView();
      var lo, hi := 0, |items|;
      if |items| >= maxItemsVisibleAtOnce {
        lo, hi := viewRangeStart, viewRangeEnd;
      }
      assert (lo, hi) == WindowBounds(v, |items|, maxItemsVisibleAtOnce);
      drawn, counters, fault := DrawItems(lo, hi);
      WindowFaultFree(v, |items|, maxItemsVisibleAtOnce);
    }

    /** The loop of `Draw` over the item indices `lo` to `hi - 1`. */
    method DrawItems(lo: int, hi: int) returns (drawn: seq<int>, counters: seq<(int, int)>, fault: Option<int>)
      modifies this
      ensures CurrentView() == old(CurrentView()) && maxItemsVisibleAtOnce == old(maxItemsVisibleAtOnce) && options == old(options)
      ensures items == MarkSelected(old(items), selectedIndex, drawn)
      ensures forall k :: 0 <= k < |drawn| ==> 0 <= drawn[k] < |items|
      ensures fault.None? ==> drawn == Range(lo, hi)
      ensures fault.Some? ==>
        lo + |drawn| < hi && fault.value == lo + |drawn| && drawn == Range(lo, fault.value) && !(0 <= fault.value < |items|)
      ensures counters == FirstThen((old(counterSelectedIndex), old(counterItemCount)), (selectedIndex + 1, |items|), |drawn|)
      ensures counterSelectedIndex == (if |drawn| > 0 then selectedIndex + 1 else old(counterSelectedIndex))
      ensures counterItemCount == (if |drawn| > 0 then |items| else old(counterItemCount))
    {
      ghost var first := (counterSelectedIndex, counterItemCount);
      ghost var next := (selectedIndex + 1, |items|);
      ghost var original := items;
      drawn, counters, fault := [], [], None;
      var i := lo;
      while i < hi && 0 <= i < |items|
        invariant i == lo + |drawn| && (i <= hi || drawn == [])
        invariant drawn == Range(lo, i)
        invariant forall k :: 0 <= k < |drawn| ==> 0 <= drawn[k] < |items|
        invariant CurrentView() == old(CurrentView()) && maxItemsVisibleAtOnce == old(maxItemsVisibleAtOnce) && options == old(options)
        invariant items == MarkSelected(original, selectedIndex, drawn)
        invariant counters == FirstThen(first, next, |drawn|)
        invariant counterSelectedIndex == (if |drawn| > 0 then selectedIndex + 1 else old(counterSelectedIndex))
        invariant counterItemCount == (if |drawn| > 0 then |items| else old(counterItemCount))
        decreases hi - i
      {
        var shown := DrawItem(i, original, drawn);
        FirstThenSnoc(first, next, |drawn|);
        counters := counters + [shown];
        RangeSnoc(lo, i);
        drawn := drawn + [i];
        i := i + 1;
      }
      if i < hi {
        fault := Some(i);
      }
    }

    /** One pass of the loop of `Draw`: item `i` learns whether it is the
        selected one, and the subtitle row is drawn with the counter it holds
        (returned) and then given the one-based selection and the item count. */
    method DrawItem(i: int, ghost original: seq<MenuEntry>, ghost drawn: seq<int>) returns (shown: (int, int))
      requires 0 <= i < |items| && i !in drawn
      requires items == MarkSelected(original, selectedIndex, drawn)
      modifies this
      ensures CurrentView() == old(CurrentView()) && maxItemsVisibleAtOnce == old(maxItemsVisibleAtOnce) && options == old(options)
      ensures items == MarkSelected(original, selectedIndex, drawn + [i])
      ensures shown == (old(counterSelectedIndex), old(counterItemCount))
      ensures counterSelectedIndex == selectedIndex + 1 && counterItemCount == |items|
    {
      MarkSelectedSnoc(original, selectedIndex, drawn, i);
      items := items[i := items[i].(isSelected := selectedIndex == i)];
      shown := (counterSelectedIndex, counterItemCount);
      counterSelectedIndex := selectedIndex + 1;
      counterItemCount := |items|;
    }
  }

  /** The items after a frame has drawn the indices `drawn`: each drawn item's
      `IsSelected` says whether it is the selected one; the others keep theirs. */
  function MarkSelected(s: seq<MenuEntry>, selected: int, drawn: seq<int>): (r: seq<MenuEntry>)
    ensures |r| == |s|
  {
    seq(|s|, k requires 0 <= k < |s| => if k in drawn then s[k].(isSelected := k == selected) else s[k])
  }

  /** After a frame every item keeps its tag, each drawn item is marked
      selected exactly when it is the selected one, and the others are
      untouched. */
  lemma MarkSelectedMeaning(s: seq<MenuEntry>, selected: int, drawn: seq<int>)
    ensures var r := MarkSelected(s, selected, drawn);
      (forall k :: 0 <= k < |s| ==> r[k].tag == s[k].tag) &&
      (forall k :: 0 <= k < |s| && k in drawn ==> r[k].isSelected == (k == selected)) &&
      (forall k :: 0 <= k < |s| && k !in drawn ==> r[k] == s[k])
  {
  }

  lemma MarkSelectedSnoc(s: seq<MenuEntry>, selected: int, drawn: seq<int>, i: int)
    requires 0 <= i < |s| && i !in drawn
    ensures MarkSelected(s, selected, drawn + [i])
         == MarkSelected(s, selected, drawn)[i := MarkSelected(s, selected, drawn)[i].(isSelected := selected == i)]
  {
    var a := MarkSelected(s, selected, drawn + [i]);
    var b := MarkSelected(s, selected, drawn)[i := MarkSelected(s, selected, drawn)[i].(isSelected := selected == i)];
    assert forall k :: 0 <= k < |s| ==> (k in drawn + [i] <==> k in drawn || k == i);
    assert |a| == |b|;
    forall k | 0 <= k < |s|
      ensures a[k] == b[k]
    {
    }
  }

  /** `first` followed by `n - 1` copies of `next` (empty when `n` is 0). */
  function FirstThen<T>(first: T, next: T, n: nat): (r: seq<T>)
    ensures |r| == n
    ensures n > 0 ==> r[0] == first
    ensures forall k :: 1 <= k < n ==> r[k] == next
  {
    if n == 0 then [] else [first] + Repeat(next, n - 1)
  }

  lemma FirstThenSnoc<T>(first: T, next: T, n: nat)
    ensures FirstThen(first, next, n + 1) == FirstThen(first, next, n) + [if n == 0 then first else next]
  {
    if n > 0 {
      assert Repeat(next, n) == Repeat(next, n - 1) + [next];
    }
  }

  lemma RangeSnoc(a: int, b: int)
    requires a <= b
    ensures Range(a, b + 1) == Range(a, b) + [b]
  {
    assert |Range(a, b + 1)| == |Range(a, b) + [b]|;
  }

  /** `Draw` visits only valid indices exactly when the window it walks is
      empty or lies inside the items. */
  lemma WindowFaultFree(v: View, count: nat, max: int)
    ensures IndicesInRange(v, count, max) <==>
      var (lo, hi) := WindowBounds(v, count, max);
      count == 0 || lo >= hi || (0 <= lo && hi <= count)
  {
    var (lo, hi) := WindowBounds(v, count, max);
    if count != 0 && lo < hi && !(0 <= lo && hi <= count) {
      var w := WindowIndices(v, count, max);
      if lo < 0 {
        assert w[0] == lo;
      } else {
        assert w[hi - lo - 1] == hi - 1;
      }
    }
  }
}
