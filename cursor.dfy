/** The wrap-around cursor that both the menu (up/down) and the list item
    (left/right) move over a list of `n` entries. */
module Cursor {

  /** One step back: from 0 to the last entry, otherwise one down. */
  function Prev(i: int, n: int): (r: int)
    ensures i == 0 ==> r == n - 1
    ensures i != 0 ==> r == i - 1
    ensures 0 <= i < n ==> 0 <= r < n
  {
    if i == 0 then n - 1 else i - 1
  }

  /** One step forward: from the last entry to 0, otherwise one up. */
  function Next(i: int, n: int): (r: int)
    ensures i == n - 1 ==> r == 0
    ensures i != n - 1 ==> r == i + 1
    ensures 0 <= i < n ==> 0 <= r < n
  {
    if i == n - 1 then 0 else i + 1
  }

  /** A step forward undoes a step back on a valid position. */
  lemma NextAfterPrev(i: int, n: int)
    requires 0 <= i < n
    ensures Next(Prev(i, n), n) == i
  {
  }

  /** A step back undoes a step forward on a valid position. */
  lemma PrevAfterNext(i: int, n: int)
    requires 0 <= i < n
    ensures Prev(Next(i, n), n) == i
  {
  }
}
