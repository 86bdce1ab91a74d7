/** Values shared by every widget of the toolkit: an optional value standing for
    a nullable reference, C#'s 32-bit int arithmetic, colours, points, keys and
    the actions (sounds, callbacks, events) a menu item can cause. */
module Common {

  /** A nullable value: `None` is C#'s `null`. */
  datatype Option<T> = None | Some(value: T)

  const INT32_MIN: int := -0x8000_0000
  const INT32_MAX: int := 0x7FFF_FFFF
  const INT32_RANGE: int := 0x1_0000_0000

  predicate IsInt32(x: int) {
    INT32_MIN <= x <= INT32_MAX
  }

  /** The result of C#'s unchecked `int` arithmetic: `x` reduced modulo 2^32 into
      the range of a 32-bit signed integer. */
  function Wrap32(x: int): (r: int)
    ensures IsInt32(r)
    ensures (x - r) % INT32_RANGE == 0
    ensures IsInt32(x) ==> r == x
  {
    (x - INT32_MIN) % INT32_RANGE + INT32_MIN
  }

  /** Two 32-bit values congruent modulo 2^32 are equal. */
  lemma Wrap32Unique(x: int, r: int)
    requires IsInt32(r) && (x - r) % INT32_RANGE == 0
    ensures Wrap32(x) == r
  {
    var w := Wrap32(x);
    assert x - r == INT32_RANGE * ((x - r) / INT32_RANGE);
    assert x - w == INT32_RANGE * ((x - w) / INT32_RANGE);
    assert w - r == INT32_RANGE * ((x - r) / INT32_RANGE - (x - w) / INT32_RANGE);
  }

  /** Adding `d` and then subtracting it again, both with wrap-around, gives
      back the original 32-bit value. */
  lemma {:induction false} Wrap32AddSub(v: int, d: int)
    requires IsInt32(v)
    ensures Wrap32(Wrap32(v + d) - d) == v
  {
    var a := Wrap32(v + d);
    assert v + d - a == INT32_RANGE * ((v + d - a) / INT32_RANGE);
    assert (a - d - v) % INT32_RANGE == 0 by {
      assert a - d - v == INT32_RANGE * (-((v + d - a) / INT32_RANGE));
    }
    Wrap32Unique(a - d, v);
  }

  /** `System.Drawing.Color` by its four ARGB components. */
  datatype Color = Argb(a: int, r: int, g: int, b: int)

  /** `Color.White` */
  const White: Color := Argb(255, 255, 255, 255)

  /** `System.Drawing.Point` */
  datatype Point = Point(x: int, y: int)

  /** A `System.Windows.Forms.Keys` code. */
  type Key = int

  /** The keys of `UIMenuOptions`. */
  datatype MenuOptions = MenuOptions(
    navigateUp: Key,
    navigateDown: Key,
    navigateLeft: Key,
    navigateRight: Key,
    acceptKey: Key)

  /** `UIMenuOptions.Default()`: NumPad8, NumPad2, NumPad4, NumPad6 and NumPad5. */
  function DefaultMenuOptions(): MenuOptions {
    MenuOptions(104, 98, 100, 102, 101)
  }

  /** What a menu item does as a side effect, in the order it does it. */
  datatype ItemEvent =
    | SelectSound                          // menu.PlaySelectSound()
    | ErrorSound                           // menu.PlayErrorSound()
    | Sound(name: string)                  // menu.PlaySound(name)
    | Click                                // the item's OnClick action
    | CheckedClick(isChecked: bool)        // a checkbox's OnClick, run while IsChecked has this value
    | SelectedItemChanged(index: int, text: string)
    | ValueChanged(value: int)

  /** The number of elements of `s` equal to `x`. */
  function Count<T(==)>(s: seq<T>, x: T): (n: nat)
    ensures n <= |s|
    ensures n > 0 <==> x in s
  {
    if s == [] then 0
    else Count(s[..|s| - 1], x) + (if s[|s| - 1] == x then 1 else 0)
  }

  lemma {:induction false} CountAppend<T>(a: seq<T>, b: seq<T>, x: T)
    ensures Count(a + b, x) == Count(a, x) + Count(b, x)
    decreases |b|
  {
    if b == [] {
      assert a + b == a;
    } else {
      assert (a + b)[..|a + b| - 1] == a + b[..|b| - 1];
      assert (a + b)[|a + b| - 1] == b[|b| - 1];
      CountAppend(a, b[..|b| - 1], x);
    }
  }

  /** `n` copies of `e`. */
  function Repeat<T>(e: T, n: nat): (r: seq<T>)
    ensures |r| == n
    ensures forall i :: 0 <= i < n ==> r[i] == e
  {
    if n == 0 then [] else Repeat(e, n - 1) + [e]
  }

  lemma RepeatSnoc<T>(prefix: seq<T>, e: T, n: nat)
    ensures prefix + Repeat(e, n) + [e] == prefix + Repeat(e, n + 1)
  {
  }
}
