/** `UISubtitleItem`: the subtitle row of a menu, whose right-hand side is the
    "selected / count" counter label computed in its `Draw`. */
module SubtitleItem {
  import opened Common
  import opened Decimal

  /** The separator between the two numbers of the counter. */
  const Separator: string := " / "

  /** The counter text: the selected index (or "0" when there are no items),
      the separator, and the item count, both in decimal. */
  function CounterLabel(selectedIndex: int, itemCount: int): string {
    (if itemCount == 0 then "0" else IntToString(selectedIndex)) + Separator + IntToString(itemCount)
  }

  /** An empty menu's counter reads "0 / 0", whatever the selected index. */
  lemma CounterLabelEmpty(selectedIndex: int)
    ensures CounterLabel(selectedIndex, 0) == "0 / 0"
  {
    assert IntToString(0) == "0";
  }

  /** A non-empty menu's counter starts with the selected index. */
  lemma CounterLabelShowsIndex(selectedIndex: int, itemCount: int)
    requires itemCount != 0
    ensures CounterLabel(selectedIndex, itemCount)[..|IntToString(selectedIndex)|] == IntToString(selectedIndex)
  {
  }

  /** The first position of `c` in `s`, if any. */
  function IndexOf(s: string, c: char): (r: Option<nat>)
    ensures r.Some? ==> r.value < |s| && s[r.value] == c
    ensures r.Some? ==> forall j :: 0 <= j < r.value ==> s[j] != c
    ensures r.None? ==> c !in s
  {
    if s == [] then None
    else if s[0] == c then Some(0)
    else match IndexOf(s[1..], c)
      case None => None
      case Some(k) => Some(k + 1)
  }

  /** The two numbers a counter label shows. */
  datatype Counter = Counter(shown: int, count: int)

  /** Reads a counter label back: the text up to the first blank, the separator,
      and the rest must each be what `IntToString` writes. */
  function ParseCounter(s: string): Option<Counter> {
    match IndexOf(s, ' ')
    case None => None
    case Some(k) =>
      if k + |Separator| <= |s| && s[k..k + |Separator|] == Separator then
        match (ParseInt(s[..k]), ParseInt(s[k + |Separator|..]))
        case (Some(a), Some(b)) => Some(Counter(a, b))
        case _ => None
      else None
  }

  lemma {:induction false} IndexOfPrefix(a: string, b: string, c: char)
    requires c !in a
    requires |b| > 0 && b[0] == c
    ensures IndexOf(a + b, c) == Some(|a|)
    decreases |a|
  {
    if a != [] {
      assert (a + b)[1..] == a[1..] + b;
      IndexOfPrefix(a[1..], b, c);
    }
  }

  /** The counter label can be read back: it shows the selected index (0 when the
      menu is empty) and the item count. */
  lemma CounterLabelRoundTrip(selectedIndex: int, itemCount: int)
    ensures ParseCounter(CounterLabel(selectedIndex, itemCount))
         == Some(Counter(if itemCount == 0 then 0 else selectedIndex, itemCount))
  {
    var left := if itemCount == 0 then "0" else IntToString(selectedIndex);
    var right := IntToString(itemCount);
    var s := CounterLabel(selectedIndex, itemCount);
    assert s == left + (Separator + right);
    assert ' ' !in left by {
      if itemCount == 0 {
        assert left == "0";
      } else {
        assert forall i :: 0 <= i < |left| ==> left[i] != ' ';
      }
    }
    IndexOfPrefix(left, Separator + right, ' ');
    var k := |left|;
    assert s[k..k + |Separator|] == Separator;
    assert s[..k] == left;
    assert s[k + |Separator|..] == right;
    IntToStringRoundTrip(itemCount);
    if itemCount == 0 {
      IntToStringRoundTrip(0);
      assert IntToString(0) == "0";
    } else {
      IntToStringRoundTrip(selectedIndex);
    }
  }
}
