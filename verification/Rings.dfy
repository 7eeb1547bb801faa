/** Fixed-size ring buffers, as the firmware keeps them: a head index and a count of items. */
module Rings {

  /** An index at most one lap further on. */
  function Wrap(x: nat, size: nat): nat {
    if x < size then x else x - size
  }

  lemma WrapIsModulo(x: nat, size: nat)
    requires x < 2 * size
    ensures x % size == Wrap(x, size) < size
  {
    if x < size {
      assert x / size == 0;
    } else {
      assert x / size == 1;
    }
  }

  /** The queue a ring holds: `items` entries from `head` on, wrapping round. */
  ghost function Ring<T>(data: seq<T>, head: nat, items: nat): (q: seq<T>)
    requires head < |data| && items <= |data|
    ensures |q| == items
    ensures forall i :: 0 <= i < items ==> q[i] == data[Wrap(head + i, |data|)]
  {
    seq(items, i requires 0 <= i < items => data[Wrap(head + i, |data|)])
  }

  lemma RingPush<T>(data: seq<T>, head: nat, items: nat, x: T)
    requires head < |data| && items < |data|
    ensures Ring(data[Wrap(head + items, |data|) := x], head, items + 1) == Ring(data, head, items) + [x]
  {
  }

  lemma RingPop<T>(data: seq<T>, head: nat, items: nat)
    requires head < |data| && 0 < items <= |data|
    ensures Ring(data, head, items)[0] == data[head]
    ensures Ring(data, Wrap(head + 1, |data|), items - 1) == Ring(data, head, items)[1..]
  {
  }

  lemma RingAmend<T>(data: seq<T>, head: nat, items: nat, x: T)
    requires head < |data| && 0 < items <= |data|
    ensures Ring(data[Wrap(head + items - 1, |data|) := x], head, items) == Ring(data, head, items)[items - 1 := x]
  {
  }
}
