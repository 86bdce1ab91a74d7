/** `UIProgressBar`: a horizontal or vertical bar filled in proportion to
    `Value / Maximum`, which the pointer can drag when it is a slider, and
    which reports once each time it becomes full. */
module ProgressBar {
  import opened Common
  import opened Widgets
  import Pool

  datatype Orientation = Horizontal | Vertical

  /** What a frame invokes, in order. */
  datatype BarEvent = SliderValueChanged(value: int) | MaximumReached

  /** Which of the bar's configured colours a frame uses. */
  datatype ColorRole = BackgroundColor | ProgressColor | DisabledBackgroundColor | DisabledProgressColor

  /** The value the pointer selects, `offset` pixels from the empty end of a
      bar `size` pixels long: `floor(offset * maximum / size)`, then capped at
      `maximum` and raised to 0. */
  function SliderValue(offset: int, maximum: int, size: int): (r: int)
    requires size > 0
    ensures maximum >= 0 ==> 0 <= r <= maximum
    ensures 0 <= offset <= size && maximum >= 0 ==> r == offset * maximum / size
  {
    var raw := offset * maximum / size;
    var capped := if raw > maximum then maximum else raw;
    if capped < 0 then 0 else capped
  }

  /** `offset * maximum / size` stays in `[0, maximum]` when the offset lies on
      the bar. */
  lemma ScaledOffsetInRange(offset: int, maximum: int, size: int)
    requires size > 0 && 0 <= offset <= size && maximum >= 0
    ensures 0 <= offset * maximum / size <= maximum
  {
    assert offset * maximum <= size * maximum;
    assert 0 <= offset * maximum;
  }

  /** The pointer's offset from the bar's empty end: from one pixel left of
      the left edge horizontally, from the bottom edge vertically. */
  function PointerOffset(o: Orientation, position: Point, height: int, mouse: Point): int {
    match o
    case Horizontal => mouse.x - (position.x - 1)
    case Vertical => (position.y + height) - mouse.y
  }

  /** The filled length: `floor(value * size / maximum)`, capped at `size`. */
  function Progress(value: int, maximum: int, size: int): (p: int)
    requires maximum > 0
    ensures p <= size
  {
    var raw := value * size / maximum;
    if raw >= size then size else raw
  }

  /** `x <= y` scales by a non-negative factor. */
  lemma {:induction false} MulLe(x: int, y: int, k: nat)
    requires x <= y
    ensures x * k <= y * k
    decreases k
  {
    if k > 0 {
      MulLe(x, y, k - 1);
      assert x * k == x * (k - 1) + x;
      assert y * k == y * (k - 1) + y;
    }
  }

  /** Floor division by a positive `d` reaches `s` exactly when `n` reaches
      `s * d`. */
  lemma DivAtLeast(n: int, d: int, s: int)
    requires d > 0
    ensures n / d >= s <==> n >= s * d
  {
    var q, r := n / d, n % d;
    assert n == q * d + r && 0 <= r < d;
    if q >= s {
      MulLe(s, q, d);
    } else {
      MulLe(q + 1, s, d);
      assert (q + 1) * d == q * d + d;
    }
  }

  /** The bar is drawn full exactly when the value has reached the maximum, and
      a value inside `[0, maximum]` fills between nothing and all of it. */
  lemma ProgressFullIff(value: int, maximum: int, size: int)
    requires maximum > 0 && size > 0
    ensures Progress(value, maximum, size) == size <==> value >= maximum
    ensures 0 <= value ==> 0 <= Progress(value, maximum, size)
  {
    DivAtLeast(value * size, maximum, size);
    assert size * maximum == maximum * size;
    if value >= maximum {
      MulLe(maximum, value, size);
    } else {
      MulLe(value, maximum - 1, size);
      assert (maximum - 1) * size == maximum * size - size;
    }
    if 0 <= value {
      MulLe(0, value, size);
      DivAtLeast(value * size, maximum, 0);
    }
  }

  /** The latch after a frame that drew `progress` of `size`: set while full. */
  function LatchAfter(progress: int, size: int): bool {
    progress >= size
  }

  /** Whether a frame raises `OnMaximumReached`: full now, and the latch clear. */
  function Fires(latched: bool, progress: int, size: int): bool {
    progress >= size && !latched
  }

  /** Which frames of a run of drawn lengths raise `OnMaximumReached`. */
  function FiresDuring(latched: bool, progresses: seq<int>, size: int): (r: seq<bool>)
    ensures |r| == |progresses|
    decreases |progresses|
  {
    if progresses == [] then []
    else
      var init := progresses[..|progresses| - 1];
      var last := progresses[|progresses| - 1];
      var before := if init == [] then latched else LatchAfter(init[|init| - 1], size);
      FiresDuring(latched, init, size) + [Fires(before, last, size)]
  }

  /** The event fires on a frame exactly when the bar is full on it and was
      not full on the frame before (or, on the first frame, the latch was
      clear): so it fires once on reaching full and re-arms only after the
      bar drops below full. */
  lemma {:induction false} FiresOnRisingEdge(latched: bool, progresses: seq<int>, size: int, i: nat)
    requires i < |progresses|
    ensures FiresDuring(latched, progresses, size)[i] <==>
      progresses[i] >= size && (if i == 0 then !latched else progresses[i - 1] < size)
    decreases |progresses|
  {
    var init := progresses[..|progresses| - 1];
    if i < |init| {
      FiresOnRisingEdge(latched, init, size, i);
      assert FiresDuring(latched, progresses, size)[i] == FiresDuring(latched, init, size)[i];
    }
  }

  class UIProgressBar {
    const base: UIBase
    /** The bar's own `Visible` flag, which `Draw` reads instead of the base's. */
    var visible: bool
    var enabled: bool
    var isSlider: bool
    var orientation: Orientation
    var width: int
    var height: int
    var maximum: int
    var value: int
    var isMouseOver: bool
    var maximumReached: bool
    /** Every event raised so far, oldest first. */
    var events: seq<BarEvent>

    /** The length of the bar along its orientation. */
    function Length(): int
      reads this
    {
      if orientation == Horizontal then width else height
    }

    /** The constructors: a visible bar at the default position with the value
        stored as given. */
    constructor(enabled: bool, isSlider: bool, orientation: Orientation, width: int, height: int, maximum: int, value: int)
      ensures fresh(base) && base.widgetType == ProgressBarWidget && base.position == Point(0, 0)
      ensures !base.isVisible && !base.hasFocus && base.tag == None && base.raised == []
      ensures visible && this.enabled == enabled && this.isSlider == isSlider && this.orientation == orientation
      ensures this.width == width && this.height == height && this.maximum == maximum && this.value == value
      ensures !isMouseOver && !maximumReached && events == []
    {
      base := new UIBase(ProgressBarWidget, Point(0, 0), false);
      visible := true;
      this.enabled := enabled;
      this.isSlider := isSlider;
      this.orientation := orientation;
      this.width := width;
      this.height := height;
      this.maximum := maximum;
      this.value := value;
      isMouseOver := false;
      maximumReached := false;
      events := [];
    }

    /** The `Value` setter, which stores its argument unclamped. */
    method SetValue(newValue: int)
      modifies this`value
      ensures value == newValue && maximum == old(maximum) && maximumReached == old(maximumReached) && events == old(events)
    {
      value := newValue;
    }

    /** One frame (`over`: the pointer is over the bar, `down`: the left button
        is held, `mouse`: the pointer position). An invisible bar changes
        nothing. Otherwise a slider under a held pointer takes the value under
        the pointer and reports it; then the filled length is computed and
        capped, and the latch and `OnMaximumReached` follow it. The frame
        returns the filled length and the two colours it draws with. */
    method Draw(over: bool, down: bool, mouse: Point) returns (drawn: Option<(int, ColorRole, ColorRole)>)
      requires maximum > 0 && width > 0 && height > 0
      modifies this
      ensures visible == old(visible) && enabled == old(enabled) && isSlider == old(isSlider)
      ensures orientation == old(orientation) && width == old(width) && height == old(height) && maximum == old(maximum)
      ensures !visible ==> (drawn.None? && value == old(value) && isMouseOver == old(isMouseOver) &&
        maximumReached == old(maximumReached) && events == old(events))
      ensures visible ==> isMouseOver == over
      ensures visible && isSlider && over && down ==>
        value == SliderValue(PointerOffset(orientation, base.position, height, mouse), maximum, Length()) &&
        0 <= value <= maximum
      ensures visible && !(isSlider && over && down) ==> value == old(value)
      ensures visible ==>
        var p := Progress(value, maximum, Length());
        drawn == Some((p, if enabled then BackgroundColor else DisabledBackgroundColor,
                          if enabled then ProgressColor else DisabledProgressColor)) &&
        maximumReached == LatchAfter(p, Length()) &&
        events == old(events) + (if isSlider && over && down then [SliderValueChanged(value)] else []) +
                  (if Fires(old(maximumReached), p, Length()) then [MaximumReached] else [])
    {
      if !visible {
        return None;
      }
      var background := if enabled then BackgroundColor else DisabledBackgroundColor;
      var progressColor := if enabled then ProgressColor else DisabledProgressColor;
      isMouseOver := over;
      var size := if orientation == Horizontal then width else height;
      if isSlider && over && down {
        DragTo(PointerOffset(orientation, base.position, height, mouse), size);
      }
      var progress := UpdateLatch(size);
      drawn := Some((progress, background, progressColor));
    }

    /** The slider update: the value under the pointer, clamped, and reported. */
    method DragTo(offset: int, size: int)
      requires size > 0
      modifies this
      ensures value == SliderValue(offset, maximum, size)
      ensures events == old(events) + [SliderValueChanged(value)]
      ensures visible == old(visible) && enabled == old(enabled) && isSlider == old(isSlider)
      ensures orientation == old(orientation) && width == old(width) && height == old(height) && maximum == old(maximum)
      ensures isMouseOver == old(isMouseOver) && maximumReached == old(maximumReached)
    {
      value := offset * maximum / size;
      if value > maximum {
        value := maximum;
      }
      if value < 0 {
        value := 0;
      }
      events := events + [SliderValueChanged(value)];
    }

    /** The filled length, capped at `size`, and the latch that follows it. */
    method UpdateLatch(size: int) returns (progress: int)
      requires maximum > 0
      modifies this
      ensures maximum == old(maximum)
      ensures progress == Progress(value, maximum, size)
      ensures maximumReached == LatchAfter(progress, size)
      ensures events == old(events) + (if Fires(old(maximumReached), progress, size) then [MaximumReached] else [])
      ensures visible == old(visible) && enabled == old(enabled) && isSlider == old(isSlider)
      ensures orientation == old(orientation) && width == old(width) && height == old(height) && maximum == old(maximum)
      ensures value == old(value) && isMouseOver == old(isMouseOver)
    {
      progress := value * size / maximum;
      if progress >= size {
        progress := size;
        if !maximumReached {
          events := events + [MaximumReached];
          maximumReached := true;
        }
      } else {
        maximumReached := false;
      }
    }
  }

  /** A new bar draws by its own `Visible` flag, but the pool's
      `IsAnyItemOfTypeVisible` reads the inherited `IsVisible`, which no
      constructor sets: a pool holding only a new bar reports no visible bar. */
  method NewBarHiddenFromPool(enabled: bool, isSlider: bool, orientation: Orientation, width: int, height: int, maximum: int, value: int)
    returns (drawsItself: bool, poolSeesVisible: bool)
    ensures drawsItself && !poolSeesVisible
  {
    var b := new UIProgressBar(enabled, isSlider, orientation, width, height, maximum, value);
    drawsItself := b.visible;
    poolSeesVisible := Pool.AnyItemOfTypeVisible([b.base], ProgressBarWidget);
  }
}
