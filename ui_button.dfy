/** `UIButton`: a clickable box whose `Draw` runs, once per frame, a small
    state machine over the pointer: hover, press, click on release over the
    button, and release when the pointer leaves while pressed. */
module Button {
  import opened Common
  import opened Widgets

  /** The two flags the frames carry over: `IsMouseOver` and `m_bWasClicked`. */
  datatype PointerState = PointerState(isMouseOver: bool, wasClicked: bool)

  /** What a frame invokes, in order. `MouseOver` is the call site of the
      mouse-over action, which no constructor or setter assigns, so in the
      library as it stands that call runs nothing. */
  datatype ButtonEvent = MouseOver | ClickedAction | Clicked | Released

  /** Which of the button's configured colours a frame uses. */
  datatype ColorRole = DefaultColor | DisabledColor | HoverColor | ClickedColor | TextColor | DisabledTextColor

  /** One frame's effect: the new flags, the events and the background. */
  datatype Frame = Frame(state: PointerState, events: seq<ButtonEvent>, background: ColorRole)

  /** One frame of a visible button: `over` says the pointer is over it and
      `down` that the left button is held. A disabled button keeps its flags. */
  function Transition(s: PointerState, enabled: bool, hasClickedAction: bool, over: bool, down: bool): Frame {
    if !enabled then Frame(s, [], DisabledColor)
    else if over then
      var enter := if !s.isMouseOver then [MouseOver] else [];
      if down then Frame(PointerState(true, true), enter, ClickedColor)
      else if s.wasClicked then
        Frame(PointerState(true, false), enter + (if hasClickedAction then [ClickedAction] else []) + [Clicked], HoverColor)
      else Frame(PointerState(true, false), enter, HoverColor)
    else Frame(PointerState(false, false), if s.wasClicked then [Released] else [], DefaultColor)
  }

  /** The text colour: `TextColor` when enabled, otherwise `DisabledTextColor`. */
  function TextColorFor(enabled: bool): ColorRole {
    if enabled then TextColor else DisabledTextColor
  }

  /** A disabled button keeps its flags, raises nothing and is drawn in
      `DisabledColor` with `DisabledTextColor`. */
  lemma DisabledFrameIsInert(s: PointerState, hasClickedAction: bool, over: bool, down: bool)
    ensures Transition(s, false, hasClickedAction, over, down) == Frame(s, [], DisabledColor)
    ensures TextColorFor(false) == DisabledTextColor
  {
  }

  /** On an enabled button the mouse-over call happens exactly on the frame the
      pointer enters, not on the frames it stays. */
  lemma MouseOverOnEntryOnly(s: PointerState, hasClickedAction: bool, over: bool, down: bool)
    ensures var f := Transition(s, true, hasClickedAction, over, down);
      (MouseOver in f.events <==> over && !s.isMouseOver) && f.state.isMouseOver == over
  {
  }

  /** Holding the button down over it arms the click and shows `ClickedColor`;
      the pointer over it with the button up shows `HoverColor`; elsewhere the
      enabled button shows `DefaultColor`. */
  lemma EnabledColors(s: PointerState, hasClickedAction: bool, over: bool, down: bool)
    ensures var f := Transition(s, true, hasClickedAction, over, down);
      (over && down ==> f.state.wasClicked && f.background == ClickedColor) &&
      (over && !down ==> f.background == HoverColor) &&
      (!over ==> f.background == DefaultColor) &&
      TextColorFor(true) == TextColor
  {
  }

  /** Releasing over an armed button clicks it once (the action, if any, then
      `Clicked`) and disarms it; leaving it while armed raises `Released`
      instead, never `Clicked`; leaving always clears the hover flag. A frame
      never raises both `Clicked` and `Released`. */
  lemma ClickAndRelease(s: PointerState, hasClickedAction: bool, over: bool, down: bool)
    ensures var f := Transition(s, true, hasClickedAction, over, down);
      (Clicked in f.events <==> s.wasClicked && over && !down) &&
      (Released in f.events <==> s.wasClicked && !over) &&
      (ClickedAction in f.events <==> s.wasClicked && over && !down && hasClickedAction) &&
      (Clicked in f.events ==> Count(f.events, Clicked) == 1 && !f.state.wasClicked) &&
      (!over ==> !f.state.isMouseOver && !f.state.wasClicked && Clicked !in f.events)
  {
    var f := Transition(s, true, hasClickedAction, over, down);
    if s.wasClicked && over && !down {
      var enter: seq<ButtonEvent> := if !s.isMouseOver then [MouseOver] else [];
      var act: seq<ButtonEvent> := if hasClickedAction then [ClickedAction] else [];
      assert f.events == enter + act + [Clicked];
      CountAppend(enter + act, [Clicked], Clicked);
      assert Count([Clicked], Clicked) == 1 by {
        assert [Clicked][..0] == [];
      }
    }
  }

  /** An input frame: pointer over the button, and left button held. */
  datatype PointerInput = PointerInput(over: bool, down: bool)

  /** The flags and all events after a run of frames on an enabled button. */
  function Run(s: PointerState, hasClickedAction: bool, inputs: seq<PointerInput>): (PointerState, seq<ButtonEvent>)
    decreases |inputs|
  {
    if inputs == [] then (s, [])
    else
      var prev := Run(s, hasClickedAction, inputs[..|inputs| - 1]);
      var last := inputs[|inputs| - 1];
      var f := Transition(prev.0, true, hasClickedAction, last.over, last.down);
      (f.state, prev.1 + f.events)
  }

  /** The number of frames with the button held over it. */
  function Presses(inputs: seq<PointerInput>): nat {
    if inputs == [] then 0
    else Presses(inputs[..|inputs| - 1]) + (if inputs[|inputs| - 1].over && inputs[|inputs| - 1].down then 1 else 0)
  }

  /** Over any run, every click and every release is paid for by a press: the
      clicks and releases together, plus one if the button is still armed,
      never exceed the presses plus one if it started armed. */
  lemma {:induction false} ClicksNeedPresses(s: PointerState, hasClickedAction: bool, inputs: seq<PointerInput>)
    ensures var (t, events) := Run(s, hasClickedAction, inputs);
      Count(events, Clicked) + Count(events, Released) + (if t.wasClicked then 1 else 0)
        <= Presses(inputs) + (if s.wasClicked then 1 else 0)
    decreases |inputs|
  {
    if inputs != [] {
      var init := inputs[..|inputs| - 1];
      var last := inputs[|inputs| - 1];
      ClicksNeedPresses(s, hasClickedAction, init);
      var prev := Run(s, hasClickedAction, init);
      var f := Transition(prev.0, true, hasClickedAction, last.over, last.down);
      CountAppend(prev.1, f.events, Clicked);
      CountAppend(prev.1, f.events, Released);
      ClickAndRelease(prev.0, hasClickedAction, last.over, last.down);
      assert Count(f.events, Released) <= 1 by {
        if Released in f.events {
          assert f.events == [Released];
          assert [Released][..0] == [];
        }
      }
    }
  }

  class UIButton {
    const base: UIBase
    var enabled: bool
    var isMouseOver: bool
    var wasClicked: bool
    /** Whether the clicked action passed to the constructor is not null. */
    const hasClickedAction: bool
    /** Every action and event invoked so far, oldest first. */
    var events: seq<ButtonEvent>

    function State(): PointerState
      reads this
    {
      PointerState(isMouseOver, wasClicked)
    }

    /** The constructors: a button at the default position, neither hovered
        nor armed. `visible` is true for the overloads that set `IsVisible`
        and false for the two that do not, which leave it at its default. */
    constructor(enabled: bool, hasClickedAction: bool, visible: bool)
      ensures fresh(base) && base.widgetType == ButtonWidget && base.position == Point(0, 0)
      ensures base.isVisible == visible && !base.hasFocus && base.tag == None && base.raised == []
      ensures this.enabled == enabled && this.hasClickedAction == hasClickedAction
      ensures State() == PointerState(false, false) && events == []
    {
      base := new UIBase(ButtonWidget, Point(0, 0), visible);
      this.enabled := enabled;
      this.hasClickedAction := hasClickedAction;
      isMouseOver := false;
      wasClicked := false;
      events := [];
    }

    /** One frame. An invisible button changes nothing and draws nothing;
        otherwise the flags and events follow `Transition`, and the frame
        returns the background and text colours it draws with. */
    method Draw(over: bool, down: bool) returns (colors: Option<(ColorRole, ColorRole)>)
      modifies this
      ensures enabled == old(enabled)
      ensures !base.isVisible ==> colors.None? && State() == old(State()) && events == old(events)
      ensures base.isVisible ==>
        var f := Transition(old(State()), enabled, hasClickedAction, over, down);
        State() == f.state && events == old(events) + f.events &&
        colors == Some((f.background, TextColorFor(enabled)))
    {
      if !base.isVisible {
        return None;
      }
      var backgroundColor := if enabled then DefaultColor else DisabledColor;
      if enabled {
        if over {
          backgroundColor := HoverColor;
          if !isMouseOver {
            events := events + [MouseOver];
            isMouseOver := true;
          }
          if down {
            backgroundColor := ClickedColor;
            wasClicked := true;
          } else {
            if wasClicked {
              if hasClickedAction {
                events := events + [ClickedAction];
              }
              events := events + [Clicked];
              wasClicked := false;
            }
          }
        } else {
          isMouseOver := false;
          if wasClicked {
            events := events + [Released];
            wasClicked := false;
          }
        }
      }
      colors := Some((backgroundColor, if enabled then TextColor else DisabledTextColor));
    }
  }

  /** As written, a button built by one of the overloads that never set
      `IsVisible` draws nothing and reacts to nothing on its first frame. */
  method HiddenOverloadIgnoresFirstFrame(enabled: bool, hasClickedAction: bool, over: bool, down: bool)
    returns (colors: Option<(ColorRole, ColorRole)>, events: seq<ButtonEvent>)
    ensures colors.None? && events == []
  {
    var b := new UIButton(enabled, hasClickedAction, false);
    colors := b.Draw(over, down);
    events := b.events;
  }

  /** With `IsVisible` set, as every other overload does, the first frame
      follows `Transition` from the idle state and is drawn. */
  method ShownButtonDrawsFirstFrame(enabled: bool, hasClickedAction: bool, over: bool, down: bool)
    returns (colors: Option<(ColorRole, ColorRole)>, events: seq<ButtonEvent>)
    ensures var f := Transition(PointerState(false, false), enabled, hasClickedAction, over, down);
      colors == Some((f.background, TextColorFor(enabled))) && events == f.events
  {
    var b := new UIButton(enabled, hasClickedAction, true);
    colors := b.Draw(over, down);
    events := b.events;
  }
}
