/** `UICheckboxItem`: a menu item whose accept key flips `IsChecked`. */
module CheckboxItem {
  import opened Common

  /** `IsChecked` starts out true. */
  const DefaultIsChecked: bool := true

  /** `IsChecked` after a key press: flipped by the accept key on an enabled
      item, and untouched otherwise. */
  function CheckedAfter(isChecked: bool, enabled: bool, key: Key, options: MenuOptions): (r: bool)
    ensures r != isChecked <==> enabled && key == options.acceptKey
  {
    if enabled && key == options.acceptKey then !isChecked else isChecked
  }

  /** Two presses of the same key leave `IsChecked` as it was. */
  lemma CheckedAfterTwice(isChecked: bool, enabled: bool, key: Key, options: MenuOptions)
    ensures CheckedAfter(CheckedAfter(isChecked, enabled, key, options), enabled, key, options) == isChecked
  {
  }

  class UICheckboxItem {
    var tag: Option<string>
    var isEnabled: bool
    var isChecked: bool
    var hasOnClick: bool
    /** The `OnClick` runs, each with the `IsChecked` it observes. */
    var trace: seq<ItemEvent>

    /** The constructors: `enabled` and `checked` are `None` for the ones
        without those parameters, which keep the defaults (both true). */
    constructor(tag: Option<string>, enabled: Option<bool>, checked: Option<bool>, hasOnClick: bool)
      ensures this.tag == tag && isEnabled == (if enabled.None? then true else enabled.value)
      ensures isChecked == (if checked.None? then DefaultIsChecked else checked.value)
      ensures this.hasOnClick == hasOnClick && trace == []
    {
      this.tag := tag;
      isEnabled := if enabled.None? then true else enabled.value;
      isChecked := if checked.None? then DefaultIsChecked else checked.value;
      this.hasOnClick := hasOnClick;
      trace := [];
    }

    /** A key press: the accept key on an enabled item flips `IsChecked` and
        then runs `OnClick`, which sees the new value. */
    method KeyPress(key: Key, options: MenuOptions)
      modifies this
      ensures isChecked == CheckedAfter(old(isChecked), isEnabled, key, options)
      ensures trace == old(trace) + (if isEnabled && key == options.acceptKey && hasOnClick then [CheckedClick(isChecked)] else [])
      ensures tag == old(tag) && isEnabled == old(isEnabled) && hasOnClick == old(hasOnClick)
    {
      if isEnabled {
        if key == options.acceptKey {
          isChecked := !isChecked;
          if hasOnClick {
            trace := trace + [CheckedClick(isChecked)];
          }
        }
      }
    }
  }

  /** Two accept presses on an enabled item restore `IsChecked`, and the two
      `OnClick` runs see the flipped value and then the original one. */
  method AcceptTwice(item: UICheckboxItem, options: MenuOptions)
    requires item.isEnabled && item.hasOnClick
    modifies item
    ensures item.isChecked == old(item.isChecked)
    ensures item.trace == old(item.trace) + [CheckedClick(!item.isChecked), CheckedClick(item.isChecked)]
  {
    item.KeyPress(options.acceptKey, options);
    item.KeyPress(options.acceptKey, options);
  }
}
