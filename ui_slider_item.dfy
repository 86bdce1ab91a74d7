/** `UISliderItem`: a menu item holding an `int` value between 0 and
    `MaxValue`, stepped by one with the left and right keys. */
module SliderItem {
  import opened Common
  import opened MenuItem

  /** The item's defaults. */
  const DefaultMaxValue: int := 100
  const DefaultCanValueBeChanged: bool := true

  /** The sounds the left and right keys play. */
  const SliderDownSound: string := "FRONTEND_MENU_SLIDER_DOWN"
  const SliderUpSound: string := "FRONTEND_MENU_SLIDER_UP"

  /** The value the `Value` setter stores for `value`: first capped at `max`,
      then raised to 0, so it is never negative even when `max` is. */
  function Clamp(value: int, max: int): (r: int)
    ensures r >= 0
    ensures max >= 0 ==> r <= max
    ensures 0 <= value <= max ==> r == value
    ensures value <= 0 ==> r == 0
    ensures max >= 0 && value >= max ==> r == max
    ensures IsInt32(value) && IsInt32(max) ==> IsInt32(r)
  {
    var capped := if value >= max then max else value;
    if capped <= 0 then 0 else capped
  }

  /** Storing the stored value again keeps it. */
  lemma ClampIdempotent(value: int, max: int)
    ensures Clamp(Clamp(value, max), max) == Clamp(value, max)
  {
  }

  /** `Value--` and `Value++`: the step wraps around like C#'s unchecked `int`
      before the setter clamps it. */
  function StepDown(value: int, max: int): int {
    Clamp(Wrap32(value - 1), max)
  }

  function StepUp(value: int, max: int): int {
    Clamp(Wrap32(value + 1), max)
  }

  /** The value after a key press that is allowed to change it: the left key
      steps down, then the right key steps up. */
  function SteppedValue(value: int, max: int, key: Key, options: MenuOptions): int {
    var afterLeft := if key == options.navigateLeft then StepDown(value, max) else value;
    if key == options.navigateRight then StepUp(afterLeft, max) else afterLeft
  }

  /** The events of those steps: each raises `ValueChanged` with the stored
      value and then plays its sound. */
  function StepEvents(value: int, max: int, key: Key, options: MenuOptions): seq<ItemEvent> {
    var afterLeft := if key == options.navigateLeft then StepDown(value, max) else value;
    (if key == options.navigateLeft then [ValueChanged(afterLeft), Sound(SliderDownSound)] else []) +
    (if key == options.navigateRight then [ValueChanged(StepUp(afterLeft, max)), Sound(SliderUpSound)] else [])
  }

  /** Left at 0 stays at 0; right at `MaxValue` stays at `MaxValue` when the
      maximum is below `int.MaxValue`; one step up and one down come back
      inside the range. Every step ends inside `[0, max]`. */
  lemma StepsStayInRange(value: int, max: int)
    requires IsInt32(value) && 0 <= max <= INT32_MAX
    ensures StepDown(0, max) == 0
    ensures max < INT32_MAX ==> StepUp(max, max) == max
    ensures 0 <= value < max ==> StepDown(StepUp(value, max), max) == value
    ensures 0 < value <= max ==> StepUp(StepDown(value, max), max) == value
    ensures 0 <= StepDown(value, max) <= max && 0 <= StepUp(value, max) <= max
  {
    assert Wrap32(0 - 1) == -1;
    if max < INT32_MAX {
      assert Wrap32(max + 1) == max + 1;
    }
    if 0 <= value < max {
      assert Wrap32(value + 1) == value + 1;
      assert Wrap32(value + 1 - 1) == value;
    }
    if 0 < value <= max {
      assert Wrap32(value - 1) == value - 1;
      assert Wrap32(value - 1 + 1) == value;
    }
  }

  /** As written, right at `MaxValue == int.MaxValue` wraps to `int.MinValue`,
      which the setter raises to 0: the slider jumps from full to empty. */
  lemma StepUpWrapsAtInt32Max()
    ensures Wrap32(INT32_MAX + 1) == INT32_MIN
    ensures StepUp(INT32_MAX, INT32_MAX) == 0
  {
  }

  /** A step up that stops at `int.MaxValue` instead of wrapping. */
  function StepUpSaturating(value: int, max: int): int {
    Clamp(if value >= INT32_MAX then INT32_MAX else value + 1, max)
  }

  /** The saturating step keeps a full slider full for every maximum, and agrees
      with the step as written wherever that one does not wrap. */
  lemma StepUpSaturatingStaysFull(value: int, max: int)
    requires 0 <= max <= INT32_MAX && IsInt32(value)
    ensures StepUpSaturating(max, max) == max
    ensures value < INT32_MAX ==> StepUpSaturating(value, max) == StepUp(value, max)
    ensures 0 <= StepUpSaturating(value, max) <= max
  {
  }

  class UISliderItem {
    var tag: Option<string>
    var isEnabled: bool
    var hasOnClick: bool
    var canValueBeChanged: bool
    var maxValue: int
    var value: int
    /** Sounds, `OnClick` runs and `ValueChanged` events, oldest first. */
    var trace: seq<ItemEvent>

    /** The constructors: `enabled` and `maxValue` are `None` for the ones
        without those parameters. The constructors set `MaxValue` but never go
        through the `Value` setter, so the value starts at 0 unclamped. */
    constructor(tag: Option<string>, enabled: Option<bool>, maxValue: Option<int>, hasOnClick: bool)
      requires maxValue.Some? ==> IsInt32(maxValue.value)
      ensures this.tag == tag && isEnabled == (if enabled.None? then true else enabled.value)
      ensures this.maxValue == (if maxValue.None? then DefaultMaxValue else maxValue.value)
      ensures value == 0 && canValueBeChanged == DefaultCanValueBeChanged
      ensures this.hasOnClick == hasOnClick && trace == []
      ensures IsInt32(this.maxValue)
    {
      this.tag := tag;
      isEnabled := if enabled.None? then true else enabled.value;
      this.maxValue := if maxValue.None? then DefaultMaxValue else maxValue.value;
      value := 0;
      canValueBeChanged := DefaultCanValueBeChanged;
      this.hasOnClick := hasOnClick;
      trace := [];
    }

    /** The `Value` setter: stores the clamped value and raises `ValueChanged`
        with it, even when the value did not change. */
    method SetValue(newValue: int)
      requires IsInt32(newValue) && IsInt32(maxValue)
      modifies this
      ensures value == Clamp(newValue, maxValue)
      ensures trace == old(trace) + [ValueChanged(value)]
      ensures maxValue == old(maxValue) && isEnabled == old(isEnabled) && canValueBeChanged == old(canValueBeChanged)
      ensures tag == old(tag) && hasOnClick == old(hasOnClick)
    {
      var tempValue := newValue;
      if tempValue >= maxValue {
        tempValue := maxValue;
      }
      if tempValue <= 0 {
        tempValue := 0;
      }
      value := tempValue;
      trace := trace + [ValueChanged(value)];
    }

    /** The `MaxValue` setter, which leaves the value as it is. */
    method SetMaxValue(newMax: int)
      requires IsInt32(newMax)
      modifies this
      ensures maxValue == newMax
      ensures value == old(value) && trace == old(trace)
      ensures isEnabled == old(isEnabled) && canValueBeChanged == old(canValueBeChanged)
      ensures tag == old(tag) && hasOnClick == old(hasOnClick)
    {
      maxValue := newMax;
    }

    /** A key press: as a plain item for the accept key and the disabled case,
        and, when the value may change, a step down for the left key and then
        a step up for the right key. */
    method KeyPress(key: Key, options: MenuOptions, navigation: bool)
      requires IsInt32(value) && IsInt32(maxValue)
      modifies this
      ensures value == (if isEnabled && navigation && canValueBeChanged then SteppedValue(old(value), maxValue, key, options) else old(value))
      ensures trace == old(trace) + KeyPressEvents(isEnabled, hasOnClick, key, options, navigation) +
        (if isEnabled && navigation && canValueBeChanged then StepEvents(old(value), maxValue, key, options) else [])
      ensures maxValue == old(maxValue) && isEnabled == old(isEnabled) && canValueBeChanged == old(canValueBeChanged)
      ensures tag == old(tag) && hasOnClick == old(hasOnClick)
    {
      if !isEnabled {
        if key == options.acceptKey {
          trace := trace + [ErrorSound];
        }
        return;
      }
      if !navigation {
        return;
      }
      ghost var t0 := trace;
      if key == options.acceptKey {
        trace := trace + [SelectSound];
        if hasOnClick {
          trace := trace + [Click];
        }
      }
      assert trace == t0 + KeyPressEvents(isEnabled, hasOnClick, key, options, navigation);
      if canValueBeChanged {
        Steps(key, options);
      }
    }

    /** The left and right steps of `KeyPress`. */
    method Steps(key: Key, options: MenuOptions)
      requires IsInt32(value) && IsInt32(maxValue)
      modifies this
      ensures value == SteppedValue(old(value), maxValue, key, options)
      ensures trace == old(trace) + StepEvents(old(value), maxValue, key, options)
      ensures maxValue == old(maxValue) && isEnabled == old(isEnabled) && canValueBeChanged == old(canValueBeChanged)
      ensures tag == old(tag) && hasOnClick == old(hasOnClick)
    {
      ghost var v0, t0 := value, trace;
      if key == options.navigateLeft {
        SetValue(Wrap32(value - 1));
        trace := trace + [Sound(SliderDownSound)];
      }
      ghost var afterLeft := if key == options.navigateLeft then StepDown(v0, maxValue) else v0;
      assert value == afterLeft;
      assert trace == t0 + (if key == options.navigateLeft then [ValueChanged(afterLeft), Sound(SliderDownSound)] else []);
      if key == options.navigateRight {
        SetValue(Wrap32(value + 1));
        trace := trace + [Sound(SliderUpSound)];
      }
    }

    method PerformClick(ignoreEnabledState: bool)
      modifies this
      ensures trace == old(trace) + PerformClickEvents(isEnabled, hasOnClick, ignoreEnabledState)
      ensures value == old(value) && maxValue == old(maxValue) && isEnabled == old(isEnabled)
      ensures canValueBeChanged == old(canValueBeChanged) && tag == old(tag) && hasOnClick == old(hasOnClick)
    {
      if ignoreEnabledState {
        if hasOnClick {
          trace := trace + [Click];
        }
      } else {
        if isEnabled {
          if hasOnClick {
            trace := trace + [Click];
          }
        }
      }
    }
  }
}
