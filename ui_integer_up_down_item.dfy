/** `UIIntegerUpDownItem`: a menu item holding an unbounded `int` value that the
    left and right keys step by `Increment`. */
module IntegerUpDownItem {
  import opened Common

  /** The item's defaults. */
  const DefaultValue: int := 0
  const DefaultIncrement: int := 1

  /** The value after a key press that reaches the steps: the left key subtracts
      the increment, then the right key adds it, each with C#'s unchecked `int`
      wrap-around and nothing else. */
  function SteppedValue(value: int, increment: int, key: Key, options: MenuOptions): (r: int)
    ensures IsInt32(value) ==> IsInt32(r)
    ensures IsInt32(value) && key != options.navigateLeft && key != options.navigateRight ==> r == value
  {
    var afterLeft := if key == options.navigateLeft then Wrap32(value - increment) else value;
    if key == options.navigateRight then Wrap32(afterLeft + increment) else afterLeft
  }

  /** The `ValueChanged` events of those steps, each with the new value. */
  function StepEvents(value: int, increment: int, key: Key, options: MenuOptions): seq<ItemEvent> {
    var afterLeft := if key == options.navigateLeft then Wrap32(value - increment) else value;
    (if key == options.navigateLeft then [ValueChanged(afterLeft)] else []) +
    (if key == options.navigateRight then [ValueChanged(Wrap32(afterLeft + increment))] else [])
  }

  /** Right then left, or left then right, restores the value, also across the
      wrap-around at the ends of the `int` range. */
  lemma {:induction false} StepRoundTrip(value: int, increment: int, options: MenuOptions)
    requires IsInt32(value) && options.navigateLeft != options.navigateRight
    ensures SteppedValue(SteppedValue(value, increment, options.navigateRight, options), increment, options.navigateLeft, options) == value
    ensures SteppedValue(SteppedValue(value, increment, options.navigateLeft, options), increment, options.navigateRight, options) == value
  {
    Wrap32AddSub(value, increment);
    Wrap32AddSub(value, -increment);
  }

  /** Away from the ends of the `int` range a step moves the value by exactly
      the increment: there is no other bound. */
  lemma StepIsExact(value: int, increment: int, options: MenuOptions)
    requires options.navigateLeft != options.navigateRight
    requires IsInt32(value - increment) && IsInt32(value + increment)
    ensures SteppedValue(value, increment, options.navigateLeft, options) == value - increment
    ensures SteppedValue(value, increment, options.navigateRight, options) == value + increment
  {
  }

  class UIIntegerUpDownItem {
    var tag: Option<string>
    var isEnabled: bool
    var hasOnClick: bool
    var value: int
    var increment: int
    /** `OnClick` runs and `ValueChanged` events, oldest first. */
    var trace: seq<ItemEvent>

    /** The constructors: `enabled` is `None` for the ones without it, and
        `valueAndIncrement` for the ones without those two parameters, which
        keep the defaults. */
    constructor(tag: Option<string>, enabled: Option<bool>, valueAndIncrement: Option<(int, int)>, hasOnClick: bool)
      requires valueAndIncrement.Some? ==> IsInt32(valueAndIncrement.value.0) && IsInt32(valueAndIncrement.value.1)
      ensures this.tag == tag && isEnabled == (if enabled.None? then true else enabled.value)
      ensures value == (if valueAndIncrement.None? then DefaultValue else valueAndIncrement.value.0)
      ensures increment == (if valueAndIncrement.None? then DefaultIncrement else valueAndIncrement.value.1)
      ensures this.hasOnClick == hasOnClick && trace == []
      ensures IsInt32(value) && IsInt32(increment)
    {
      this.tag := tag;
      isEnabled := if enabled.None? then true else enabled.value;
      value := if valueAndIncrement.None? then DefaultValue else valueAndIncrement.value.0;
      increment := if valueAndIncrement.None? then DefaultIncrement else valueAndIncrement.value.1;
      this.hasOnClick := hasOnClick;
      trace := [];
    }

    /** A key press: nothing unless the item is enabled and the press is for
        navigation; then the accept key runs `OnClick`, the left key steps
        down and the right key steps up, each raising `ValueChanged`. */
    method KeyPress(key: Key, options: MenuOptions, navigation: bool)
      requires IsInt32(value)
      modifies this
      ensures !isEnabled || !navigation ==> value == old(value) && trace == old(trace)
      ensures isEnabled && navigation ==>
        value == SteppedValue(old(value), increment, key, options) &&
        trace == old(trace) + (if key == options.acceptKey && hasOnClick then [Click] else []) +
                 StepEvents(old(value), increment, key, options)
      ensures tag == old(tag) && isEnabled == old(isEnabled) && hasOnClick == old(hasOnClick) && increment == old(increment)
    {
      if isEnabled {
        if navigation {
          if key == options.acceptKey {
            if hasOnClick {
              trace := trace + [Click];
            }
          }
          if key == options.navigateLeft {
            value := Wrap32(value - increment);
            trace := trace + [ValueChanged(value)];
          }
          if key == options.navigateRight {
            value := Wrap32(value + increment);
            trace := trace + [ValueChanged(value)];
          }
        }
      }
    }
  }
}
