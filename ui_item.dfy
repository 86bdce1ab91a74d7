/** `UIItem`: a plain menu item with an optional icon, which runs its `OnClick`
    action when it is accepted or clicked. */
module MenuItem {
  import opened Common

  /** `eD3D9ResourceType`, as far as the icon setter tells its values apart. */
  datatype ResourceType = Texture | Font | OtherResource

  /** A `D3DResource`: the host's handle and its type. */
  datatype Resource = Resource(handle: int, kind: ResourceType)

  /** The icon after the `Icon` setter is given `value` (`None` for null):
      null and fonts are refused, anything else replaces the icon. */
  function IconAfter(current: Option<Resource>, value: Option<Resource>): Option<Resource> {
    if value.None? || value.value.kind == Font then current else value
  }

  /** The setter never leaves a font as the icon unless one was there already,
      and a refused value keeps the previous icon. */
  lemma IconNeverFont(current: Option<Resource>, value: Option<Resource>)
    ensures var r := IconAfter(current, value);
      (r.Some? && r.value.kind == Font ==> r == current) &&
      (value.Some? && value.value.kind != Font <==> r == value && r.Some? && r.value.kind != Font) &&
      (r != value ==> r == current)
  {
  }

  /** Giving the setter the same value twice is the same as giving it once. */
  lemma IconAfterIdempotent(current: Option<Resource>, value: Option<Resource>)
    ensures IconAfter(IconAfter(current, value), value) == IconAfter(current, value)
  {
  }

  /** What a key press does to an item with the given enabled state:
      `navigation` is `shouldBeUsedForNavigation`. */
  function KeyPressEvents(enabled: bool, hasOnClick: bool, key: Key, options: MenuOptions, navigation: bool): (r: seq<ItemEvent>)
    ensures Click in r <==> enabled && navigation && key == options.acceptKey && hasOnClick
    ensures ErrorSound in r <==> !enabled && key == options.acceptKey
    ensures Click in r ==> r == [SelectSound, Click]
    ensures enabled && navigation && key == options.acceptKey ==> r == [SelectSound] + (if hasOnClick then [Click] else [])
    ensures !enabled && key == options.acceptKey ==> r == [ErrorSound]
    ensures enabled && !navigation ==> r == []
    ensures key != options.acceptKey ==> r == []
  {
    if enabled then
      if navigation && key == options.acceptKey then [SelectSound] + (if hasOnClick then [Click] else [])
      else []
    else if key == options.acceptKey then [ErrorSound]
    else []
  }

  /** What `PerformClick` does: the action runs when the enabled state is
      ignored or the item is enabled. */
  function PerformClickEvents(enabled: bool, hasOnClick: bool, ignoreEnabledState: bool): (r: seq<ItemEvent>)
    ensures |r| <= 1 && (r != [] ==> r == [Click])
    ensures r == [Click] <==> hasOnClick && (ignoreEnabledState || enabled)
  {
    if (ignoreEnabledState || enabled) && hasOnClick then [Click] else []
  }

  /** Ignoring the enabled state can only add the click, never take it away. */
  lemma IgnoreEnabledStateClicksMore(enabled: bool, hasOnClick: bool)
    ensures Click in PerformClickEvents(enabled, hasOnClick, false) ==> Click in PerformClickEvents(enabled, hasOnClick, true)
    ensures PerformClickEvents(true, hasOnClick, false) == PerformClickEvents(enabled, hasOnClick, true)
  {
  }

  class UIItem {
    var tag: Option<string>
    var isEnabled: bool
    var icon: Option<Resource>
    /** Whether `OnClick` is set (not null). */
    var hasOnClick: bool
    /** Every sound played and action run on behalf of the item, oldest first. */
    var trace: seq<ItemEvent>

    /** The constructors: `enabled` is `None` for the ones without an
        `enabled` parameter, which keep the default `true`; the icon goes
        through the setter, so a font icon is dropped. */
    constructor(tag: Option<string>, enabled: Option<bool>, icon: Option<Resource>, hasOnClick: bool)
      ensures this.tag == tag
      ensures isEnabled == (if enabled.None? then true else enabled.value)
      ensures this.icon == IconAfter(None, icon)
      ensures this.hasOnClick == hasOnClick && trace == []
    {
      this.tag := tag;
      isEnabled := if enabled.None? then true else enabled.value;
      this.icon := None;
      this.hasOnClick := hasOnClick;
      trace := [];
      new;
      SetIcon(icon);
    }

    /** The `Icon` setter. */
    method SetIcon(value: Option<Resource>)
      modifies this
      ensures icon == IconAfter(old(icon), value)
      ensures tag == old(tag) && isEnabled == old(isEnabled) && hasOnClick == old(hasOnClick) && trace == old(trace)
    {
      if value.None? || value.value.kind == Font {
        return;
      }
      icon := value;
    }

    method KeyPress(key: Key, options: MenuOptions, navigation: bool)
      modifies this
      ensures trace == old(trace) + KeyPressEvents(isEnabled, hasOnClick, key, options, navigation)
      ensures tag == old(tag) && isEnabled == old(isEnabled) && icon == old(icon) && hasOnClick == old(hasOnClick)
    {
      if isEnabled {
        if navigation {
          if key == options.acceptKey {
            trace := trace + [SelectSound];
            if hasOnClick {
              trace := trace + [Click];
            }
          }
        }
      } else {
        if key == options.acceptKey {
          trace := trace + [ErrorSound];
        }
      }
    }

    method PerformClick(ignoreEnabledState: bool)
      modifies this
      ensures trace == old(trace) + PerformClickEvents(isEnabled, hasOnClick, ignoreEnabledState)
      ensures tag == old(tag) && isEnabled == old(isEnabled) && icon == old(icon) && hasOnClick == old(hasOnClick)
    {
      if ignoreEnabledState {
        if hasOnClick {
          trace := trace + [Click];
        }
      } else {
        if isEnabled {
          if hasOnClick {
            trace := trace + [Click];
          }
        }
      }
    }
  }
}
