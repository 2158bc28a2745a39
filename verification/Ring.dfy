// The request ring of one lcore: a power-of-two array with 32-bit head and
// tail counters wrapped by `size - 1`.
module Rings {
  import opened Masks

  class Ring<T(0)> {
    const size: nat
    ghost const bits: nat
    const items: array<T>
    var head: nat
    var tail: nat

    // The queued items, oldest first.
    ghost var contents: seq<T>

    // `contents` may reach `size` between a re-push and the pop it belongs to.
    ghost predicate Valid()
      reads this, items
    {
      && 1 <= bits <= 31 && size == Pow2(bits) && size >= 2 && items.Length == size
      && tail < size && |contents| <= size && head == Turn(tail, |contents|)
      && forall i | 0 <= i < |contents| :: contents[i] == items[Turn(tail, i)]
    }

    function Turn(i: nat, n: nat): nat {
      if i + n < size then i + n else i + n - size
    }

    constructor (ghost p: nat, n: nat)
      requires 1 <= p <= 31 && n == Pow2(p)
      ensures Valid() && contents == [] && size == n && bits == p && fresh(items)
    {
      size, bits := n, p;
      items := new T[n];
      head, tail, contents := 0, 0, [];
    }

    // A ring of `size` items reads as empty, as head has caught up with tail.
    method Count() returns (n: nat)
      requires Valid()
      ensures n == if |contents| == size then 0 else |contents|
    {
      RingDistance(head, tail, bits);
      n := BitAnd(Sub32(head, tail), size - 1);
    }

    method Push(x: T)
      requires Valid() && |contents| < size
      modifies this`head, this`contents, items
      ensures Valid() && contents == old(contents) + [x]
      ensures forall i | 0 <= i < size && i != old(head) :: items[i] == old(items[i])
    {
      items[head] := x;
      MaskSmall(head + 1, bits);
      head := BitAnd(head + 1, size - 1);
      contents := contents + [x];
    }

    // Returns the array slot of the oldest item; its contents stay readable.
    method Pop() returns (slot: nat)
      requires Valid() && contents != []
      modifies this`tail, this`contents
      ensures Valid() && contents == old(contents)[1..]
      ensures slot == old(tail) && slot < size && items[slot] == old(contents)[0]
    {
      slot := tail;
      MaskSmall(tail + 1, bits);
      tail := BitAnd(tail + 1, size - 1);
      contents := contents[1..];
    }
  }
}
