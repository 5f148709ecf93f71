// Slot arithmetic shared by the fixed-size ring buffers.
module Rings {

  // The i-th slot after head, wrapping around once.
  function Slot(head: nat, i: nat, n: nat): (s: nat)
    requires head < n && i <= n
    ensures s < n && s == (head + i) % n
  {
    Wraps(head + i, n);
    if head + i < n then head + i else head + i - n
  }

  lemma Wraps(a: nat, n: nat)
    requires n > 0 && a < 2 * n
    ensures a % n == if a < n then a else a - n
  {}

  // The ring's elements in order, for a ring of count elements starting at head.
  function Elements<T>(slots: seq<T>, head: nat, count: nat): (r: seq<T>)
    requires head < |slots| && count <= |slots|
    ensures |r| == count
  {
    seq(count, i requires 0 <= i < count => slots[Slot(head, i, |slots|)])
  }

  lemma OldestFirst<T>(slots: seq<T>, head: nat, count: nat)
    requires head < |slots| && 0 < count <= |slots|
    ensures Elements(slots, head, count)[0] == slots[head]
  {}

  // Dropping the oldest element, whatever is left in its slot.
  lemma DropOldest<T>(slots: seq<T>, head: nat, count: nat, filler: T)
    requires head < |slots| && 0 < count <= |slots|
    ensures
      Elements(slots[head := filler], Slot(head, 1, |slots|), count - 1) == Elements(slots, head, count)[1..]
  {}

  // Adding an element behind the newest one.
  lemma AddNewest<T>(slots: seq<T>, head: nat, count: nat, x: T)
    requires head < |slots| && count < |slots|
    ensures
      Elements(slots[Slot(head, count, |slots|) := x], head, count + 1) == Elements(slots, head, count) + [x]
  {}
}
