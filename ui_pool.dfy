/** `UIPool`: the list of top-level elements a script owns, with focus
    bookkeeping, key dispatch to the focused element and queries by exact type. */
module Pool {
  import opened Common
  import opened Widgets

  /** The elements of `s` whose exact type is `t`, in their order in `s`. */
  function ItemsOfType(s: seq<UIBase>, t: WidgetType): (r: seq<UIBase>)
    ensures |r| <= |s|
    ensures forall i :: 0 <= i < |r| ==> r[i] in s && r[i].widgetType == t
    ensures forall i :: 0 <= i < |s| && s[i].widgetType == t ==> s[i] in r
  {
    if s == [] then []
    else ItemsOfType(s[..|s| - 1], t) + (if s[|s| - 1].widgetType == t then [s[|s| - 1]] else [])
  }

  /** Filtering a concatenation filters each part, so the filter keeps the
      relative order of the elements it keeps. */
  lemma {:induction false} ItemsOfTypeAppend(a: seq<UIBase>, b: seq<UIBase>, t: WidgetType)
    ensures ItemsOfType(a + b, t) == ItemsOfType(a, t) + ItemsOfType(b, t)
    decreases |b|
  {
    if b == [] {
      assert a + b == a;
    } else {
      assert (a + b)[..|a + b| - 1] == a + b[..|b| - 1];
      ItemsOfTypeAppend(a, b[..|b| - 1], t);
    }
  }

  /** Every element of type `t` is kept as many times as it occurs, and no other
      element is kept. */
  lemma {:induction false} ItemsOfTypeCount(s: seq<UIBase>, t: WidgetType, x: UIBase)
    ensures Count(ItemsOfType(s, t), x) == (if x.widgetType == t then Count(s, x) else 0)
    decreases |s|
  {
    if s != [] {
      var init := s[..|s| - 1];
      var last := s[|s| - 1];
      ItemsOfTypeCount(init, t, x);
      var tail: seq<UIBase> := if last.widgetType == t then [last] else [];
      assert ItemsOfType(s, t) == ItemsOfType(init, t) + tail;
      CountAppend(ItemsOfType(init, t), tail, x);
      assert Count(s, x) == Count(init, x) + (if last == x then 1 else 0);
      if last.widgetType == t {
        assert [last][..0] == [];
        assert Count(tail, x) == (if last == x then 1 else 0);
      } else {
        assert Count(tail, x) == 0;
      }
    }
  }

  /** Whether some element of exact type `t` is visible. */
  predicate AnyItemOfTypeVisible(s: seq<UIBase>, t: WidgetType)
    reads s
  {
    exists i :: 0 <= i < |s| && s[i].widgetType == t && s[i].isVisible
  }

  /** `IsAnyItemOfTypeVisible` holds exactly when the elements `GetItemsOfType`
      returns include a visible one. */
  lemma {:induction false} AnyVisibleIffVisibleOfType(s: seq<UIBase>, t: WidgetType)
    ensures AnyItemOfTypeVisible(s, t) <==> exists k :: 0 <= k < |ItemsOfType(s, t)| && ItemsOfType(s, t)[k].isVisible
  {
    var r := ItemsOfType(s, t);
    if i :| 0 <= i < |s| && s[i].widgetType == t && s[i].isVisible {
      assert s[i] in r;
      var k :| 0 <= k < |r| && r[k] == s[i];
      assert 0 <= k < |ItemsOfType(s, t)| && ItemsOfType(s, t)[k].isVisible;
    }
    if k :| 0 <= k < |r| && r[k].isVisible {
      assert r[k] in s;
      var i :| 0 <= i < |s| && s[i] == r[k];
      assert 0 <= i < |s| && s[i].widgetType == t && s[i].isVisible;
    }
  }

  /** `cur` is `orig` followed by copies of `e` only. */
  predicate Appended(orig: seq<BaseEvent>, cur: seq<BaseEvent>, e: BaseEvent) {
    |cur| >= |orig| && cur == orig + Repeat(e, |cur| - |orig|)
  }

  lemma AppendedSnoc(orig: seq<BaseEvent>, cur: seq<BaseEvent>, e: BaseEvent)
    requires cur == orig || Appended(orig, cur, e)
    ensures Appended(orig, cur + [e], e)
  {
    RepeatSnoc(orig, e, |cur| - |orig|);
  }

  class UIPool {
    var items: seq<UIBase>

    constructor()
      ensures items == []
    {
      items := [];
    }

    /** Empties the pool. */
    method Cleanup()
      modifies this
      ensures items == []
    {
      if |items| == 0 {
        return;
      }
      items := [];
    }

    /** Sets the visibility of every element whose exact type is `t`. Each such
        element raises `VisibilityChanged(visible)` (once per occurrence in the
        pool) and nothing else; the others are untouched. */
    method ChangeVisibilityOfEveryElementOfType(t: WidgetType, visible: bool)
      modifies items
      ensures forall x :: x in items && x.widgetType == t ==>
        x.isVisible == visible && |x.raised| > |old(x.raised)| && Appended(old(x.raised), x.raised, VisibilityChanged(visible))
      ensures forall x :: x in items && x.widgetType != t ==>
        x.isVisible == old(x.isVisible) && x.raised == old(x.raised)
      ensures forall x :: x in items ==>
        x.hasFocus == old(x.hasFocus) && x.position == old(x.position) && x.tag == old(x.tag)
    {
      var i := 0;
      while i < |items|
        invariant 0 <= i <= |items|
        invariant forall x :: x in items[..i] && x.widgetType == t ==>
          x.isVisible == visible && |x.raised| > |old(x.raised)| && Appended(old(x.raised), x.raised, VisibilityChanged(visible))
        invariant forall x :: x in items && (x !in items[..i] || x.widgetType != t) ==>
          x.isVisible == old(x.isVisible) && x.raised == old(x.raised)
        invariant forall x :: x in items ==>
          x.hasFocus == old(x.hasFocus) && x.position == old(x.position) && x.tag == old(x.tag)
      {
        var x := items[i];
        assert items[..i + 1] == items[..i] + [x];
        if x.widgetType == t {
          AppendedSnoc(old(x.raised), x.raised, VisibilityChanged(visible));
          x.SetVisibility(visible);
        }
        i := i + 1;
      }
      assert items[..i] == items;
    }

    /** Gives `item` the focus or takes it away, and reports whether it did so
        (it refuses `null`). Giving the focus first takes it from every other
        element of the pool, each raising `FocusChanged(false)` (once per
        occurrence) and nothing else; taking it away touches `item` alone. */
    method SetFocus(item: UIBase?, focus: bool) returns (changed: bool)
      modifies items, item
      ensures changed <==> item != null
      ensures item == null ==> forall x :: x in items ==>
        x.hasFocus == old(x.hasFocus) && x.raised == old(x.raised)
      ensures item != null ==> item.hasFocus == focus
      ensures item != null ==> item.raised == old(item.raised) + [FocusChanged(focus)]
      ensures item != null && !focus ==> forall x :: x in items && x != item ==>
        x.hasFocus == old(x.hasFocus) && x.raised == old(x.raised)
      ensures item != null && focus ==> forall x :: x in items && x != item ==>
        !x.hasFocus && |x.raised| > |old(x.raised)| && Appended(old(x.raised), x.raised, FocusChanged(false))
      ensures forall x :: x in items ==>
        x.isVisible == old(x.isVisible) && x.position == old(x.position) && x.tag == old(x.tag)
    {
      if item == null {
        return false;
      }
      if !focus {
        item.SetFocus(false);
      } else {
        var i := 0;
        while i < |items|
          invariant 0 <= i <= |items|
          invariant forall x :: x in items[..i] && x != item ==>
            !x.hasFocus && |x.raised| > |old(x.raised)| && Appended(old(x.raised), x.raised, FocusChanged(false))
          invariant forall x :: x in items && x !in items[..i] ==>
            x.hasFocus == old(x.hasFocus) && x.raised == old(x.raised)
          invariant item.raised == old(item.raised)
          invariant forall x :: x in items ==>
            x.isVisible == old(x.isVisible) && x.position == old(x.position) && x.tag == old(x.tag)
          invariant item.isVisible == old(item.isVisible) && item.position == old(item.position) && item.tag == old(item.tag)
        {
          var x := items[i];
          assert items[..i + 1] == items[..i] + [x];
          if x != item {
            AppendedSnoc(old(x.raised), x.raised, FocusChanged(false));
            x.SetFocus(false);
          }
          i := i + 1;
        }
        assert items[..i] == items;
        item.SetFocus(true);
      }
      return true;
    }

    /** The index of the element a key press is forwarded to: the first focused
        element in pool order, none when no element is focused, and none for a
        missing key event. */
    method ProcessKeys(args: Option<Key>) returns (target: Option<nat>)
      ensures args.None? ==> target.None?
      ensures target.Some? ==> target.value < |items| && items[target.value].hasFocus
      ensures target.Some? ==> forall j :: 0 <= j < target.value ==> !items[j].hasFocus
      ensures args.Some? && target.None? ==> forall j :: 0 <= j < |items| ==> !items[j].hasFocus
    {
      if args.None? {
        return None;
      }
      target := None;
      var i := 0;
      while i < |items|
        invariant 0 <= i <= |items|
        invariant forall j :: 0 <= j < i ==> !items[j].hasFocus
      {
        var item := items[i];
        if item.hasFocus {
          target := Some(i);
          break;
        }
        i := i + 1;
      }
    }
  }

  /** After `SetFocus(item, true)` for an element of the pool, exactly that
      element is focused, so key presses go to its first occurrence. */
  method FocusThenProcessKeys(pool: UIPool, item: UIBase, key: Key) returns (target: Option<nat>)
    requires item in pool.items
    modifies pool.items
    ensures target.Some? && target.value < |pool.items| && pool.items[target.value] == item
    ensures forall j :: 0 <= j < target.value ==> pool.items[j] != item
  {
    var _ := pool.SetFocus(item, true);
    target := pool.ProcessKeys(Some(key));
  }
}
