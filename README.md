# SharpUI state rules in Dafny

SharpUI is a menu and widget toolkit for a game host. It has:

- a `UIPool` of top-level elements (`UIMenu`, `UIButton`, `UIProgressBar`, `UIList`);
- focus and visibility bookkeeping in `UIBase`;
- menus of items (plain, list, slider, checkbox, integer up/down) with a
  subtitle row showing "selected / count".

The drawing calls are host calls. The rules that decide what is drawn,
selected, focused, clicked or reported are plain integer and boolean
bookkeeping, and that is what this project models and proves.

How elements are represented:

- Elements that change in place are classes: `UIBase`, `UIPool`, `UIMenu`,
  the item classes, `UIButton`, `UIProgressBar` and `UIList`.
- Their methods are proved against specification functions, for example
  `NavigateUpView`, `KeyPressEvents`, `Transition`, `Progress` and `Rows`.
- Lemmas about those functions state what the toolkit promises: wrap-around,
  ranges, idempotence, round trips and "nothing else changes".

What the host supplies, and how it appears in the model:

- Sounds, `OnClick` actions and events become entries appended to a trace
  field. Examples are `trace`, `events` and `raised`.
- Pointer and key input become parameters: `over`, `down` and `mouse` for
  the pointer, and a key code together with `MenuOptions` for keys.
- Text heights become a function parameter.
- C#'s unchecked 32-bit `int` arithmetic is written out (`Common.Wrap32`)
  where a step can overflow.

Modules, one per source file:

- `Widgets` (UIBase.cs), `Pool` (UIPool.cs) and `Menu` (UIMenu.cs).
- `MenuItem`, `ListItem`, `SliderItem`, `CheckboxItem` and
  `IntegerUpDownItem` (the item files).
- `SubtitleItem` (UISubtitleItem.cs).
- `Button`, `ProgressBar` and `TextList` (UIButton.cs, UIProgressBar.cs,
  UIList.cs).

Shared helper modules:

- `Common`: an option type, int32 wrap-around, colours, points, keys and
  item events.
- `Cursor`: the wrap-around cursor shared by the menu and the list item.
- `Decimal`: `int.ToString()`, with '-' as the negative sign, and a parser for it.

## Model

| member | source | states |
|---|---|---|
| Common.Wrap32 | SharpUI/SharpUI/UIMenu/Items/UIIntegerUpDownItem.cs:275-284 | unchecked `int` arithmetic: the result is a 32-bit value congruent to the exact one modulo 2^32, and equal to it when that fits |
| Common.Wrap32AddSub | SharpUI/SharpUI/UIMenu/Items/UIIntegerUpDownItem.cs:275-284 | adding and then subtracting the same amount, each with wrap-around, gives back any 32-bit value |
| Cursor.Prev | SharpUI/SharpUI/UIMenu/Items/UIListItem.cs:172-179 | a step back goes from 0 to the last index and otherwise subtracts one; it stays in `[0, n)` |
| Cursor.Next | SharpUI/SharpUI/UIMenu/Items/UIListItem.cs:191-198 | a step forward goes from the last index to 0 and otherwise adds one; it stays in `[0, n)` |
| Cursor.NextAfterPrev | SharpUI/SharpUI/UIMenu/Items/UIListItem.cs:168-201 | a step forward undoes a step back on any valid index |
| Cursor.PrevAfterNext | SharpUI/SharpUI/UIMenu/Items/UIListItem.cs:168-201 | a step back undoes a step forward on any valid index |
| Decimal.IntToString | SharpUI/SharpUI/UIMenu/Items/Internal/UISubtitleItem.cs:30 | `ToString()` of an int is non-empty, starts with '-' exactly for negative numbers, and has no blank or '/' |
| Decimal.IntToStringRoundTrip | SharpUI/SharpUI/UIMenu/Items/Internal/UISubtitleItem.cs:30 | parsing the decimal text of any int gives the int back |
| SubtitleItem.CounterLabelEmpty | SharpUI/SharpUI/UIMenu/Items/Internal/UISubtitleItem.cs:30 | with no items the counter reads "0 / 0" whatever the selected index is |
| SubtitleItem.CounterLabelShowsIndex | SharpUI/SharpUI/UIMenu/Items/Internal/UISubtitleItem.cs:30 | with items, the counter starts with the selected index in decimal |
| SubtitleItem.CounterLabelRoundTrip | SharpUI/SharpUI/UIMenu/Items/Internal/UISubtitleItem.cs:30 | the counter is the left number, then exactly " / ", then the item count. Reading it back gives the selected index (0 for no items) and the count |
| Widgets.UIBase.constructor | SharpUI/SharpUI/UIBase.cs:14-17 | an element starts unfocused with a null tag and no events, at the given position and visibility |
| Widgets.UIBase.SetFocus | SharpUI/SharpUI/UIBase.cs:78-82 | `HasFocus` becomes the argument and `FocusChanged` is raised once with it; visibility, position and tag are unchanged |
| Widgets.UIBase.SetVisibility | SharpUI/SharpUI/UIBase.cs:89-93 | `IsVisible` becomes the argument and `VisibilityChanged` is raised once with it; focus, position and tag are unchanged |
| Widgets.SetFocusTwice | SharpUI/SharpUI/UIBase.cs:78-82 | a second identical call leaves the same state but raises the event a second time |
| Widgets.SetVisibilityTwice | SharpUI/SharpUI/UIBase.cs:89-93 | a second identical call leaves the same state but raises the event a second time |
| Pool.ItemsOfType | SharpUI/SharpUI/UIPool.cs:63-66 | `GetItemsOfType` keeps only elements from the pool of the exact type, and keeps every one of them |
| Pool.ItemsOfTypeAppend | SharpUI/SharpUI/UIPool.cs:63-66 | the filter distributes over concatenation, so it keeps pool order |
| Pool.ItemsOfTypeCount | SharpUI/SharpUI/UIPool.cs:63-66 | each element of the exact type appears as often as in the pool, and any other element not at all |
| Pool.AnyVisibleIffVisibleOfType | SharpUI/SharpUI/UIPool.cs:73-76 | `IsAnyItemOfTypeVisible` holds exactly when the elements of that exact type include a visible one |
| Pool.UIPool.constructor | SharpUI/SharpUI/UIPool.cs:23-26 | a new pool is empty |
| Pool.UIPool.Cleanup | SharpUI/SharpUI/UIPool.cs:34-41 | the pool is empty afterwards |
| Pool.UIPool.ChangeVisibilityOfEveryElementOfType | SharpUI/SharpUI/UIPool.cs:49-54 | each element of the exact type gets the visibility and raises only `VisibilityChanged` with it. The other elements keep visibility and events, and no element's focus, position or tag changes |
| Pool.UIPool.SetFocus | SharpUI/SharpUI/UIPool.cs:84-104 | returns false for null and changes nothing; returns true otherwise. Focusing an item first unfocuses every other element, each raising only `FocusChanged(false)`. Unfocusing touches the item alone. The item ends with the requested focus and one event |
| Pool.UIPool.ProcessKeys | SharpUI/SharpUI/UIPool.cs:125-139 | the key goes to the first focused element in pool order; to none when none is focused or the key event is null |
| Pool.FocusThenProcessKeys | SharpUI/SharpUI/UIPool.cs:84-139 | after focusing an element of the pool, keys go to its first occurrence |
| Menu.MaxItemsFor | SharpUI/SharpUI/UIMenu/UIMenu.cs:82-93 | the stored width is the requested one when at least 2, otherwise 6 |
| Menu.NavigateEmpty | SharpUI/SharpUI/UIMenu/UIMenu.cs:190-235 | on an empty menu both steps leave the selection and the view range as they are |
| Menu.NavigateMovesCursor | SharpUI/SharpUI/UIMenu/UIMenu.cs:190-235 | up and down move the selection with wrap-around at both ends and keep a valid selection valid. The window width either stays or becomes `MaxItemsVisibleAtOnce` |
| Menu.NavigateKeepsWindow | SharpUI/SharpUI/UIMenu/UIMenu.cs:190-235 | with at least `max` items and a full window inside the items covering the selection, both steps keep all of that |
| Menu.NavigateRoundTrip | SharpUI/SharpUI/UIMenu/UIMenu.cs:190-235 | down after up, and up after down, restore a valid selection |
| Menu.SafeViewInRange | SharpUI/SharpUI/UIMenu/UIMenu.cs:299-342 | under the safe-view invariant every index `Draw` visits is a valid item index |
| Menu.InitialViewSafe | SharpUI/SharpUI/UIMenu/UIMenu.cs:26-28 | the initial view (selection 0, range `[0, 6)`) is safe for any number of items |
| Menu.SafeViewPreserved | SharpUI/SharpUI/UIMenu/UIMenu.cs:82-93 | `NavigateDown`, the width setter and adding items each keep the view safe |
| Menu.InWindowSafe | SharpUI/SharpUI/UIMenu/UIMenu.cs:340-342 | a full window inside the items is safe |
| Menu.UpWrapStartsBeforeFirstItem | SharpUI/SharpUI/UIMenu/UIMenu.cs:194-198 | as written, wrapping up on a menu shorter than its width sets a negative start. After the width shrinks, `Draw` visits a negative index |
| Menu.NavigateUpClampedSafe | SharpUI/SharpUI/UIMenu/UIMenu.cs:194-198 | with the wrap start clamped at 0, `NavigateUp` keeps the view safe on any number of items |
| Menu.NavigateUpClampedAgrees | SharpUI/SharpUI/UIMenu/UIMenu.cs:190-210 | the clamped step equals the step as written whenever the menu has at least `max` items |
| Menu.GetItemByThisTag | SharpUI/SharpUI/UIMenu/UIMenu.cs:244-247 | the result is the first item whose tag reads the string, or none when no item matches. Items with a null tag never match, and a null argument matches nothing |
| Menu.UIMenu.constructor | SharpUI/SharpUI/UIMenu/UIMenu.cs:143-183 | a hidden, unfocused menu with the given items (none for null), selection 0 and view `[0, 6)` |
| Menu.UIMenu.NavigateUp | SharpUI/SharpUI/UIMenu/UIMenu.cs:190-210 | the view becomes `NavigateUpView` of the old one; items, width and counter are unchanged |
| Menu.UIMenu.NavigateDown | SharpUI/SharpUI/UIMenu/UIMenu.cs:215-235 | the view becomes `NavigateDownView` of the old one; items, width and counter are unchanged |
| Menu.UIMenu.SetMaxItemsVisibleAtOnce | SharpUI/SharpUI/UIMenu/UIMenu.cs:82-93 | the width and `ViewRangeEnd` become 6 for a value below 2 and the value otherwise; start and selection stay |
| Menu.UIMenu.KeyPress | SharpUI/SharpUI/UIMenu/UIMenu.cs:412-434 | nothing happens for a null event or an invisible, unfocused or empty menu. Otherwise up navigates up, then down navigates down, and the key goes to the selected item; a valid selection is always forwarded |
| Menu.UIMenu.Cleanup | SharpUI/SharpUI/UIMenu/UIMenu.cs:437-444 | the items are empty afterwards; the view and width are unchanged |
| Menu.UIMenu.Draw | SharpUI/SharpUI/UIMenu/UIMenu.cs:254-376 | there are four outcomes (listed after the table) |
| Menu.UIMenu.DrawItems | SharpUI/SharpUI/UIMenu/UIMenu.cs:299-376 | the loop visits `lo, lo+1, ...` until `hi` or the first invalid index. It marks each visited item and records the subtitle counter before each visit; the counter holds the one-based selection and the count after the first |
| Menu.UIMenu.DrawItem | SharpUI/SharpUI/UIMenu/UIMenu.cs:342-343 | marks one item and shows the previous counter, then sets the new one |
| Menu.MarkSelectedMeaning | SharpUI/SharpUI/UIMenu/UIMenu.cs:343 | after a frame every drawn item is marked exactly when it is the selected one; undrawn items and all tags are untouched |
| Menu.WindowFaultFree | SharpUI/SharpUI/UIMenu/UIMenu.cs:299-342 | `Draw` visits only valid indices exactly when the window it walks is empty or lies inside the items |
| MenuItem.IconNeverFont | SharpUI/SharpUI/UIMenu/Items/UIItem.cs:39-48 | the icon setter drops null and font resources, keeping the previous icon, and stores anything else |
| MenuItem.IconAfterIdempotent | SharpUI/SharpUI/UIMenu/Items/UIItem.cs:39-48 | setting the same icon twice is the same as once |
| MenuItem.KeyPressEvents | SharpUI/SharpUI/UIMenu/Items/UIItem.cs:300-318 | accept on an enabled item during a navigation press plays the select sound and then, when set, runs `OnClick` once. Accept on a disabled item plays only the error sound. An enabled non-navigation press and any other key do nothing |
| MenuItem.PerformClickEvents | SharpUI/SharpUI/UIMenu/Items/UIItem.cs:321-334 | `OnClick` runs (once) exactly when it is set and the enabled state is ignored or the item is enabled |
| MenuItem.IgnoreEnabledStateClicksMore | SharpUI/SharpUI/UIMenu/Items/UIItem.cs:321-334 | ignoring the enabled state only adds the click, and acts like an enabled item |
| MenuItem.UIItem.constructor | SharpUI/SharpUI/UIMenu/Items/UIItem.cs:59-140 | tag, enabled state (default true) and action as given. The icon goes through the setter |
| MenuItem.UIItem.SetIcon | SharpUI/SharpUI/UIMenu/Items/UIItem.cs:39-48 | the icon becomes `IconAfter` of the old icon and the value; nothing else changes |
| MenuItem.UIItem.KeyPress | SharpUI/SharpUI/UIMenu/Items/UIItem.cs:300-318 | the trace grows by `KeyPressEvents`; nothing else changes |
| MenuItem.UIItem.PerformClick | SharpUI/SharpUI/UIMenu/Items/UIItem.cs:321-334 | the trace grows by `PerformClickEvents`; nothing else changes |
| ListItem.SelectedText | SharpUI/SharpUI/UIMenu/Items/UIListItem.cs:53-61 | the empty string for an empty list, the selected entry's text for a valid index, and a throw exactly when the list is non-empty and the index is invalid |
| ListItem.KeyPressKeepsSelection | SharpUI/SharpUI/UIMenu/Items/UIListItem.cs:168-201 | a key press keeps a valid selection valid, and every `SelectedItemChanged` names a valid index and its text. An empty list never moves or reports |
| ListItem.KeyCursorRoundTrip | SharpUI/SharpUI/UIMenu/Items/UIListItem.cs:168-201 | right after left, and left after right, restore a valid selection |
| ListItem.UIListItem.constructor | SharpUI/SharpUI/UIMenu/Items/UIListItem.cs:77-161 | the given entries (none for null), selection 0 (valid), enabled by default |
| ListItem.UIListItem.NavigateLeft | SharpUI/SharpUI/UIMenu/Items/UIListItem.cs:168-182 | an empty list is untouched. Otherwise the selection steps back with wrap-around and `SelectedItemChanged` reports the new index and its text. It fails only when the selection was invalid to begin with |
| ListItem.UIListItem.NavigateRight | SharpUI/SharpUI/UIMenu/Items/UIListItem.cs:187-201 | the same, stepping forward |
| ListItem.UIListItem.KeyPress | SharpUI/SharpUI/UIMenu/Items/UIListItem.cs:274-291 | a disabled item ignores keys. On an enabled item with a valid selection, the selection moves as `KeyCursor` and the trace grows by the click (accept) and the steps' events |
| ListItem.UIListItem.Cleanup | SharpUI/SharpUI/UIMenu/Items/UIListItem.cs:294-298 | selection 0 and an empty list |
| SliderItem.Clamp | SharpUI/SharpUI/UIMenu/Items/UISliderItem.cs:57-62 | the stored value is never negative and never above a non-negative maximum. A value in range is stored unchanged; values at or below 0 give 0, and values at or above the maximum give the maximum |
| SliderItem.ClampIdempotent | SharpUI/SharpUI/UIMenu/Items/UISliderItem.cs:57-62 | storing the stored value again keeps it |
| SliderItem.StepsStayInRange | SharpUI/SharpUI/UIMenu/Items/UISliderItem.cs:307-322 | left at 0 stays 0 and right at the maximum stays there (below `int.MaxValue`). A step up then down, or down then up, inside the range comes back, and every step stays in `[0, max]` |
| SliderItem.StepUpWrapsAtInt32Max | SharpUI/SharpUI/UIMenu/Items/UISliderItem.cs:319 | as written, right at `MaxValue == int.MaxValue` wraps and stores 0 |
| SliderItem.StepUpSaturatingStaysFull | SharpUI/SharpUI/UIMenu/Items/UISliderItem.cs:319 | a non-wrapping increment keeps a full slider full for every maximum and agrees with the written step elsewhere |
| SliderItem.UISliderItem.constructor | SharpUI/SharpUI/UIMenu/Items/UISliderItem.cs:22-24 | defaults `MaxValue = 100`, `CanValueBeChanged = true`, `Value = 0`, enabled by default |
| SliderItem.UISliderItem.SetValue | SharpUI/SharpUI/UIMenu/Items/UISliderItem.cs:52-66 | stores the clamped value and raises `ValueChanged` with it on every assignment |
| SliderItem.UISliderItem.SetMaxValue | SharpUI/SharpUI/UIMenu/Items/UISliderItem.cs:46-50 | changes the maximum without re-clamping the value |
| SliderItem.UISliderItem.KeyPress | SharpUI/SharpUI/UIMenu/Items/UISliderItem.cs:296-330 | the value steps only when enabled, navigating and changeable. The trace is the plain item's events followed by each step's `ValueChanged` and sound |
| SliderItem.UISliderItem.Steps | SharpUI/SharpUI/UIMenu/Items/UISliderItem.cs:307-322 | left steps down, then right steps up, each through the setter and then its sound |
| SliderItem.UISliderItem.PerformClick | SharpUI/SharpUI/UIMenu/Items/UISliderItem.cs:333-346 | the trace grows by `PerformClickEvents` |
| CheckboxItem.CheckedAfter | SharpUI/SharpUI/UIMenu/Items/UICheckboxItem.cs:182-192 | `IsChecked` changes exactly for the accept key on an enabled item |
| CheckboxItem.CheckedAfterTwice | SharpUI/SharpUI/UIMenu/Items/UICheckboxItem.cs:186-188 | two presses of the same key restore `IsChecked` |
| CheckboxItem.UICheckboxItem.constructor | SharpUI/SharpUI/UIMenu/Items/UICheckboxItem.cs:22 | `IsChecked` defaults to true and the enabled state to true |
| CheckboxItem.UICheckboxItem.KeyPress | SharpUI/SharpUI/UIMenu/Items/UICheckboxItem.cs:182-192 | flips `IsChecked` as `CheckedAfter`, then runs `OnClick`, which sees the new value |
| CheckboxItem.AcceptTwice | SharpUI/SharpUI/UIMenu/Items/UICheckboxItem.cs:186-189 | two accepts restore `IsChecked`; the two clicks see the flipped value and then the original |
| IntegerUpDownItem.SteppedValue | SharpUI/SharpUI/UIMenu/Items/UIIntegerUpDownItem.cs:275-284 | a 32-bit value stays 32-bit, and keys other than left and right (accept included) leave it |
| IntegerUpDownItem.StepRoundTrip | SharpUI/SharpUI/UIMenu/Items/UIIntegerUpDownItem.cs:275-284 | right then left, or left then right, restores the value, also across the wrap-around |
| IntegerUpDownItem.StepIsExact | SharpUI/SharpUI/UIMenu/Items/UIIntegerUpDownItem.cs:275-284 | away from the ends of the int range a step moves by exactly the increment; there is no other bound |
| IntegerUpDownItem.UIIntegerUpDownItem.constructor | SharpUI/SharpUI/UIMenu/Items/UIIntegerUpDownItem.cs:23-24 | defaults `Value = 0`, `Increment = 1` |
| IntegerUpDownItem.UIIntegerUpDownItem.KeyPress | SharpUI/SharpUI/UIMenu/Items/UIIntegerUpDownItem.cs:265-287 | nothing unless enabled and navigating. Then the value follows `SteppedValue` and the trace gets the click and one `ValueChanged` per step with the new value |
| Button.DisabledFrameIsInert | SharpUI/SharpUI/UIForms/UIButton.cs:724-728 | a disabled button keeps both flags, raises nothing and uses the disabled colours |
| Button.MouseOverOnEntryOnly | SharpUI/SharpUI/UIForms/UIButton.cs:735-739 | the mouse-over call happens exactly on the frame the pointer enters |
| Button.EnabledColors | SharpUI/SharpUI/UIForms/UIButton.cs:724-746 | pressed over the button arms it with `ClickedColor`; over it unpressed gives `HoverColor`; elsewhere `DefaultColor`; the text is `TextColor` |
| Button.ClickAndRelease | SharpUI/SharpUI/UIForms/UIButton.cs:749-764 | release over an armed button clicks exactly once (action, then `Clicked`) and disarms. Leaving while armed raises `Released`, never `Clicked`, and leaving clears the hover flag |
| Button.ClicksNeedPresses | SharpUI/SharpUI/UIForms/UIButton.cs:742-764 | over any run of frames, clicks plus releases are paid for by presses |
| Button.UIButton.constructor | SharpUI/SharpUI/UIForms/UIButton.cs:155-321 | a button at the default position, neither hovered nor armed, visible for the overloads that set `IsVisible` and hidden for the two (lines 282 and 302) that do not |
| Button.HiddenOverloadIgnoresFirstFrame | SharpUI/SharpUI/UIForms/UIButton.cs:282-321 | as written, a button from those two overloads draws nothing and raises nothing on its first frame |
| Button.ShownButtonDrawsFirstFrame | SharpUI/SharpUI/UIForms/UIButton.cs:155-157 | a button with `IsVisible` set, as the other overloads do, runs its first frame through `Transition` from the idle state and draws it |
| Button.UIButton.Draw | SharpUI/SharpUI/UIForms/UIButton.cs:719-780 | an invisible button changes nothing. Otherwise flags and events follow `Transition`, and the colours are its background and `TextColorFor` |
| ProgressBar.SliderValue | SharpUI/SharpUI/UIForms/UIProgressBar.cs:1173-1179 | the dragged value always lies in `[0, Maximum]` and is the floor of offset times maximum over size on the bar |
| ProgressBar.ScaledOffsetInRange | SharpUI/SharpUI/UIForms/UIProgressBar.cs:1173-1174 | an offset on the bar scales into `[0, Maximum]` before clamping |
| ProgressBar.Progress | SharpUI/SharpUI/UIForms/UIProgressBar.cs:1186-1191 | the drawn length never exceeds the bar's length, even for a value above the maximum |
| ProgressBar.ProgressFullIff | SharpUI/SharpUI/UIForms/UIProgressBar.cs:1186-1191 | the bar is drawn full exactly when the value reaches the maximum, and empty-or-more for a non-negative value |
| ProgressBar.FiresOnRisingEdge | SharpUI/SharpUI/UIForms/UIProgressBar.cs:1194-1203 | `OnMaximumReached` fires on a frame exactly when the bar is full then and was not full on the previous frame (or the latch was clear) |
| ProgressBar.UIProgressBar.constructor | SharpUI/SharpUI/UIForms/UIProgressBar.cs:167-186 | a visible bar at the default position with the value stored as given, latch clear; no overload sets `Position`. The inherited element starts hidden, unfocused, untagged and with no events |
| ProgressBar.NewBarHiddenFromPool | SharpUI/SharpUI/UIPool.cs:73-76 | a new bar shows by its own `Visible` flag, yet a pool holding only it reports no visible bar of its type |
| ProgressBar.UIProgressBar.SetValue | SharpUI/SharpUI/UIForms/UIProgressBar.cs:84-88 | the value is stored unclamped |
| ProgressBar.UIProgressBar.Draw | SharpUI/SharpUI/UIForms/UIProgressBar.cs:1149-1245 | an invisible bar changes nothing. Otherwise the frame sets the hover flag, drags the value only for a slider under a held pointer (then in range and reported), draws `Progress` in the enabled or disabled colours, and updates the latch and event |
| ProgressBar.UIProgressBar.DragTo | SharpUI/SharpUI/UIForms/UIProgressBar.cs:1173-1181 | the value becomes `SliderValue` and is reported |
| ProgressBar.UIProgressBar.UpdateLatch | SharpUI/SharpUI/UIForms/UIProgressBar.cs:1186-1203 | the capped length is returned, the latch is set exactly while full, and the event fires only when the latch was clear |
| TextList.FuncEntry | SharpUI/SharpUI/UI/UIList.cs:100-141 | a `Func` entry is no spacer, drawable, with empty text, white unless a colour is given |
| TextList.TextEntry | SharpUI/SharpUI/UI/UIList.cs:100-141 | a text entry is no spacer, drawable, without `Func`, white unless a colour is given |
| TextList.Spacer | SharpUI/SharpUI/UI/UIList.cs:143-157 | a spacer is a spacer; `CanBeDrawn` keeps its default true |
| TextList.DrawnIndices | SharpUI/SharpUI/UI/UIList.cs:229-236 | exactly the drawable entries' indices, increasing |
| TextList.RowsAreDrawnEntries | SharpUI/SharpUI/UI/UIList.cs:229-240 | the rows are the drawable entries in order, each showing `Func`'s text or `Text`, at the row of its full-list index |
| TextList.HiddenEntriesNotDrawn | SharpUI/SharpUI/UI/UIList.cs:233-236 | every row comes from a drawable entry; spacers and entries that cannot be drawn give none |
| TextList.UIList.constructor | SharpUI/SharpUI/UI/UIList.cs:169-218 | a visible list with the given entries (none for null) and spacing 0 |
| TextList.UIList.Draw | SharpUI/SharpUI/UI/UIList.cs:222-243 | nothing for null `Items` or an invisible list, otherwise `Rows` of the entries |
| TextList.UIList.Cleanup | SharpUI/SharpUI/UI/UIList.cs:252-259 | `Items` becomes null, after which `Draw` draws nothing |

The four outcomes of `Menu.UIMenu.Draw`:

- Nothing happens without graphics or while the menu is hidden.
- An empty menu draws the subtitle once.
- Otherwise the items `Draw` visits are exactly `WindowBounds` of the view,
  stopping at the first invalid index. It stops exactly when
  `IndicesInRange` fails.
- Each visited item is marked per `MarkSelected`, and the subtitle row shows
  the previous counter first and `SelectedIndex + 1 / Count` afterwards, as
  `FirstThen` says.

## Left out

- Rendering: every `Draw*`, `MeasureText`, font and texture call is a host
  call. The menu's header image and title, the no-items row, item positions,
  the button's shadow and border, and the progress rectangle's geometry are
  not modelled. Only the state and index logic of each `Draw` is.
- Host input: `CGame.Mouse` and `KeyEventArgs` are parameters. They are
  `over`/`down`/`mouse` for the pointer and a key code with `MenuOptions` for
  keys. `isKeyUpEvent` is unused by the modelled bodies and left out.
- Sounds, actions and events are trace entries. They show that a call
  happens and with what value; the subscribers are not modelled.
- Virtual dispatch is not modelled:
  - `UIPool.ProcessKeys` and `UIMenu.KeyPress` return the index the key is
    forwarded to;
  - the forwarded item's `KeyPress` is modelled per item class on its own;
  - the `Cleanup` calls that `UIPool.Cleanup` and `UIMenu.Cleanup` make on
    each element are not shown (the plain, slider and up/down items'
    `Cleanup` bodies are empty).
- The element types are a closed `WidgetType` set, and the item's
  `GetType()` is that tag. Generic `T` values of the list item are their
  `ToString()` texts, and tags are their `ToString()` texts.
- `UIDoubleUpDownItem`, `UINumberUpDownItem` (floating point and `dynamic`
  arithmetic), `UIDummyItem`, `UIStyles`, `UIMenuOptions` (constants only;
  its default keys are `Common.DefaultMenuOptions`) and `SharpUITest/Main.cs`
  are not part of this model.
- The colour constructor overloads of the button and the progress bar, and
  colours as values: a frame returns which configured colour it uses. The
  button overloads that differ in behaviour are told apart by the
  constructor's `visible` parameter.
- Button.UIButton.constructor: text, font, size, border and shadow are not
  modelled, and the position is the default one, as no overload sets it.
  `UIButton.Placeholder()` (the empty internal constructor) is the
  constructor with `enabled`, `hasClickedAction` and `visible` all false.
- ProgressBar.UIProgressBar.Draw:
  - works in integer floor division, `value * size / maximum`, where the
    source floors the double `value / maximum * size`. The two can differ by
    rounding;
  - requires `Maximum > 0` and positive width and height; `Maximum == 0`
    (a division by zero) is not modelled.
- ProgressBar.UIProgressBar: `Draw` reads the bar's own `Visible` flag. The
  inherited `IsVisible` is a separate field, which the constructor leaves
  false, as in the source.
- Button.ButtonEvent: `MouseOver` marks the call of the mouse-over action,
  which nothing assigns, so in the library that call does nothing.
- ListItem.UIListItem.NavigateLeft, ListItem.UIListItem.NavigateRight: both
  assume `SelectedItemChanged` has a subscriber, and so does
  ListItem.UIListItem.KeyPress, which calls both. Without a subscriber, C#
  does not evaluate `SelectedText`, and so does not throw for an invalid
  selection.
- TextList.Entry: `Func` is given as the text it returns for the entry. Entry
  fields other than those `Draw` reads are not modelled.
- Menu and list indices are unbounded integers. Only the slider and up/down
  steps, which can overflow, are modelled with 32-bit wrap-around.
- Menu.UIMenu: the items are values (tag and `IsSelected`), so an item
  object shared between two menus is not captured. `Cleanup` leaves the view
  and the selection as they were, as in the source.
- Pool.UIPool.ChangeVisibilityOfEveryElementOfType: states that each matching
  element raises only `VisibilityChanged(visible)`, at least once. The exact
  count is once per occurrence of the element in the pool, and this count is
  not stated.
- Pool.UIPool.SetFocus: states the same "only `FocusChanged(false)`, at least
  once" for the other elements, not the exact number of occurrences.
- Pool.UIPool.ProcessKeys: `shouldBeUsedForNavigation` and `isKeyUpEvent`
  are passed on to the element and are not modelled.

## Findings

| source | as written | input that shows it | evidently intended | confidence | as-written member | corrected member |
|---|---|---|---|---|---|---|
| SharpUI/SharpUI/UIMenu/UIMenu.cs:197 | wrapping up sets `ViewRangeStart = (Count - 1) - (MaxItemsVisibleAtOnce - 1)`, negative on a menu with fewer items than its width | 3 items, width 6, selection 0: `NavigateUp` gives start -3; after `MaxItemsVisibleAtOnce = 2`, `Draw` reads `Items[-3]` | the start clamped at 0 | not executed | Menu.UpWrapStartsBeforeFirstItem | Menu.NavigateUpClampedSafe |
| SharpUI/SharpUI/UIForms/UIButton.cs:282 | two of the 26 public constructors (lines 282 and 302) never set `IsVisible = true`, which all the others set | a button built with either overload: its `Draw` returns at once until `SetVisibility(true)` | every public constructor makes the button visible | not executed | Button.HiddenOverloadIgnoresFirstFrame | Button.ShownButtonDrawsFirstFrame |
| SharpUI/SharpUI/UIMenu/Items/UISliderItem.cs:319 | `Value++` uses unchecked `int` arithmetic before the setter clamps | `MaxValue = Value = int.MaxValue`, right key: the value wraps to `int.MinValue` and is stored as 0 | a full slider stays full | not executed | SliderItem.StepUpWrapsAtInt32Max | SliderItem.StepUpSaturatingStaysFull |
