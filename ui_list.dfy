/** `UIList`: a column of text entries drawn one row per entry index, with
    entries that are hidden or spacers skipped but still taking their row. */
module TextList {
  import opened Common
  import opened Widgets

  /** `Color.Empty`, the colour a spacer is left with. */
  const EmptyColor: Color := Argb(0, 0, 0, 0)

  /** A `UIList.Entry`. `funcText` stands for `Func`: `None` when it is null,
      otherwise the text it returns for the entry. `text` is `None` where the
      C# string is null. */
  datatype Entry = Entry(isSpacer: bool, canBeDrawn: bool, text: Option<string>, color: Color, funcText: Option<string>)

  /** `new Entry(color, func)` and `new Entry(func)`: empty text, white unless a
      colour is given. */
  function FuncEntry(color: Option<Color>, funcText: string): (e: Entry)
    ensures !e.isSpacer && e.canBeDrawn && e.text == Some("") && e.funcText == Some(funcText)
    ensures e.color == (if color.None? then White else color.value)
  {
    Entry(false, true, Some(""), if color.None? then White else color.value, Some(funcText))
  }

  /** `new Entry(color, text)` and `new Entry(text)`: no `Func`, white unless a
      colour is given. */
  function TextEntry(color: Option<Color>, text: string): (e: Entry)
    ensures !e.isSpacer && e.canBeDrawn && e.text == Some(text) && e.funcText == None
    ensures e.color == (if color.None? then White else color.value)
  {
    Entry(false, true, Some(text), if color.None? then White else color.value, None)
  }

  /** `Entry.Spacer()`: a spacer that keeps every other field at its default. */
  function Spacer(): (e: Entry)
    ensures e.isSpacer && e.canBeDrawn && e.text == None && e.funcText == None
  {
    Entry(true, true, None, EmptyColor, None)
  }

  /** A drawn row: its text, where it is drawn, and in which colour. */
  datatype Row = Row(text: Option<string>, x: int, y: int, color: Color)

  /** Whether `Draw` draws the entry at all. */
  predicate Drawable(e: Entry) {
    e.canBeDrawn && !e.isSpacer
  }

  /** What a drawable entry shows: the text `Func` returns when it is set,
      otherwise `Text`. */
  function ShownText(e: Entry): Option<string> {
    if e.funcText.Some? then Some(e.funcText.value) else e.text
  }

  /** The row of the entry at index `i`: at the list's x, and `i` rows of the
      entry's text height plus the spacing below the list's y. */
  function RowOf(e: Entry, i: int, position: Point, distance: int, textHeight: Option<string> -> int): Row {
    Row(ShownText(e), position.x, position.y + (textHeight(ShownText(e)) + distance) * i, e.color)
  }

  /** The rows `Draw` produces for `items[..n]`, in index order. */
  function Rows(items: seq<Entry>, n: nat, position: Point, distance: int, textHeight: Option<string> -> int): seq<Row>
    requires n <= |items|
    decreases n
  {
    if n == 0 then []
    else
      Rows(items, n - 1, position, distance, textHeight) +
      (if Drawable(items[n - 1]) then [RowOf(items[n - 1], n - 1, position, distance, textHeight)] else [])
  }

  /** The indices of the drawable entries among the first `n`, in order. */
  function DrawnIndices(items: seq<Entry>, n: nat): (r: seq<nat>)
    requires n <= |items|
    ensures forall k :: 0 <= k < |r| ==> r[k] < n && Drawable(items[r[k]])
    ensures forall i :: 0 <= i < n && Drawable(items[i]) ==> i in r
    ensures forall k, l :: 0 <= k < l < |r| ==> r[k] < r[l]
    decreases n
  {
    if n == 0 then []
    else DrawnIndices(items, n - 1) + (if Drawable(items[n - 1]) then [n - 1] else [])
  }

  /** The rows are exactly the drawable entries, in order, each at the row of
      its index in the whole list, so skipped entries leave gaps. */
  lemma {:induction false} RowsAreDrawnEntries(items: seq<Entry>, n: nat, position: Point, distance: int, textHeight: Option<string> -> int)
    requires n <= |items|
    ensures var rows := Rows(items, n, position, distance, textHeight);
      var ix := DrawnIndices(items, n);
      |rows| == |ix| &&
      forall k :: 0 <= k < |rows| ==> rows[k] == RowOf(items[ix[k]], ix[k], position, distance, textHeight)
    decreases n
  {
    if n > 0 {
      RowsAreDrawnEntries(items, n - 1, position, distance, textHeight);
    }
  }

  /** Spacers and entries that cannot be drawn never produce a row. */
  lemma HiddenEntriesNotDrawn(items: seq<Entry>, position: Point, distance: int, textHeight: Option<string> -> int)
    ensures forall r :: r in Rows(items, |items|, position, distance, textHeight) ==>
      exists i :: 0 <= i < |items| && Drawable(items[i]) && r == RowOf(items[i], i, position, distance, textHeight)
  {
    RowsAreDrawnEntries(items, |items|, position, distance, textHeight);
    var rows := Rows(items, |items|, position, distance, textHeight);
    var ix := DrawnIndices(items, |items|);
    forall r | r in rows
      ensures exists i :: 0 <= i < |items| && Drawable(items[i]) && r == RowOf(items[i], i, position, distance, textHeight)
    {
      var k :| 0 <= k < |rows| && rows[k] == r;
      assert Drawable(items[ix[k]]);
    }
  }

  class UIList {
    const base: UIBase
    /** `Items`, `None` once `Cleanup` has set it to null. */
    var items: Option<seq<Entry>>
    var distanceBetweenItems: int

    /** The constructors: a visible list with the given entries (none for a
        null array). */
    constructor(tag: Option<string>, position: Point, initial: Option<seq<Entry>>)
      ensures fresh(base) && base.widgetType == ListWidget && base.position == position
      ensures base.isVisible && !base.hasFocus && base.tag == tag && base.raised == []
      ensures items == Some(if initial.None? then [] else initial.value)
      ensures distanceBetweenItems == 0
    {
      base := new UIBase(ListWidget, position, true);
      items := Some(if initial.None? then [] else initial.value);
      distanceBetweenItems := 0;
      new;
      base.tag := tag;
    }

    /** One frame: nothing once `Items` is null or while the list is invisible,
        otherwise the rows of every drawable entry. `textHeight` is the
        height the host measures for a text. */
    method Draw(textHeight: Option<string> -> int) returns (rows: seq<Row>)
      ensures items.None? || !base.isVisible ==> rows == []
      ensures items.Some? && base.isVisible ==>
        rows == Rows(items.value, |items.value|, base.position, distanceBetweenItems, textHeight)
    {
      if items.None? {
        return [];
      }
      if !base.isVisible {
        return [];
      }
      rows := Rows(items.value, |items.value|, base.position, distanceBetweenItems, textHeight);
    }

    /** Clears the entries and sets `Items` to null, after which `Draw` draws
        nothing. */
    method Cleanup()
      modifies this
      ensures items == None && distanceBetweenItems == old(distanceBetweenItems)
    {
      if items.Some? {
        items := Some([]);
        items := None;
      }
    }
  }
}
