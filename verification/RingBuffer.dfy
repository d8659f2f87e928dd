/** The simulator's fixed-size buffer: a ring that holds one item less than its size. */
module RingBuffer {
  import opened Words

  /** The count as the code computes it, in 32-bit arithmetic. */
  function CountOf(rptr: nat, wptr: nat, size: nat): nat
    requires size > 0
  {
    (wptr + size - rptr) % UINT % size
  }

  /** The number of places from rptr up to wptr, going round. */
  function Distance(rptr: nat, wptr: nat, size: nat): int {
    if wptr >= rptr then wptr - rptr else wptr + size - rptr
  }

  lemma OneTurn(x: int, size: nat)
    requires 0 <= x < 2 * size
    ensures x % size == if x >= size then x - size else x
  {
    if x >= size {
      assert x == 1 * size + (x - size);
      Quotient(x, size, x - size);
    } else {
      Small(x, size);
    }
  }

  lemma Small(x: int, size: nat)
    requires 0 <= x < size
    ensures x % size == x
  {
  }

  lemma Quotient(x: int, size: nat, r: int)
    requires 0 <= r < size && x == size + r
    ensures x % size == r
  {
    assert (x - size) % size == r by {
      Small(r, size);
    }
  }

  /** The count is right for all positions exactly up to a size of 2^31. */
  lemma CountIsRight(size: nat)
    requires 0 < size < UINT
    ensures (forall r: nat, w: nat :: r < size && w < size ==> CountOf(r, w, size) == Distance(r, w, size)) <==> size <= UINT / 2
  {
    if size <= UINT / 2 {
      forall r: nat, w: nat | r < size && w < size ensures CountOf(r, w, size) == Distance(r, w, size) {
        NoOverflow(r, w, size);
      }
    } else {
      var w := UINT - size;
      assert (w + size) % UINT == 0;
      Small(0, size);
      assert CountOf(0, w, size) != Distance(0, w, size);
    }
  }

  lemma NoOverflow(rptr: nat, wptr: nat, size: nat)
    requires 0 < size <= UINT / 2 && rptr < size && wptr < size
    ensures CountOf(rptr, wptr, size) == Distance(rptr, wptr, size)
  {
    assert (wptr + size - rptr) % UINT == wptr + size - rptr;
    OneTurn(wptr + size - rptr, size);
  }

  /** One more item, without the oldest one if there were size - 1. */
  function Pushed<T>(items: seq<T>, data: T, size: nat): seq<T>
    requires size > 0
  {
    if |items| >= size - 1 then (items + [data])[1..] else items + [data]
  }

  /** What is left of many items. */
  function PushedAll<T>(items: seq<T>, data: seq<T>, size: nat): seq<T>
    requires size > 0
  {
    if data == [] then items else Pushed(PushedAll(items, data[..|data| - 1], size), data[|data| - 1], size)
  }

  /** The last size - 1 of them. */
  lemma {:induction false} LastPushes<T>(items: seq<T>, data: seq<T>, size: nat)
    requires size > 0 && |items| <= size - 1
    ensures var all, kept := items + data, PushedAll(items, data, size);
            kept == all[if |all| > size - 1 then |all| - (size - 1) else 0..]
  {
    var all := items + data;
    if data == [] {
      assert all == items;
    } else {
      var n := |data| - 1;
      LastPushes(items, data[..n], size);
      assert all == items + data[..n] + [data[n]];
    }
  }

  class FixedSizeBuffer<T(0)> {
    const size: nat
    const buffer: array<T>
    var rptr: nat
    var wptr: nat
    /** The items, the oldest first. */
    ghost var items: seq<T>

    ghost predicate Valid()
      reads this, buffer
    {
      && 0 < size <= UINT / 2 && buffer.Length == size && rptr < size && wptr < size
      && |items| == Distance(rptr, wptr, size)
      && forall i :: 0 <= i < |items| ==> items[i] == buffer[Place(i)]
    }

    /** Where the i-th item is. */
    function Place(i: nat): (k: nat)
      requires rptr < size && i < size
      reads this
      ensures k < size
    {
      if rptr + i >= size then rptr + i - size else rptr + i
    }

    constructor (size: nat)
      requires 0 < size <= UINT / 2
      ensures Valid() && items == [] && this.size == size && fresh(buffer)
    {
      this.size := size;
      buffer := new T[size];
      rptr, wptr, items := 0, 0, [];
    }

    method Clear()
      requires Valid()
      modifies this
      ensures Valid() && items == []
    {
      rptr, wptr, items := 0, 0, [];
    }

    method IsEmpty() returns (empty: bool)
      requires Valid()
      ensures empty <==> items == []
    {
      empty := rptr == wptr;
    }

    method IsFull() returns (full: bool)
      requires Valid()
      ensures full <==> |items| == size - 1
    {
      NoOverflow(rptr, wptr, size);
      full := (wptr + size - rptr) % UINT % size == size - 1;
    }

    method Count() returns (n: nat)
      requires Valid()
      ensures n == |items|
    {
      NoOverflow(rptr, wptr, size);
      n := (wptr + size - rptr) % UINT % size;
    }

    method Pop()
      requires Valid()
      modifies this
      ensures Valid() && items == (if old(items) == [] then [] else old(items)[1..]) && wptr == old(wptr)
    {
      var empty := IsEmpty();
      if !empty {
        rptr := rptr + 1;
        if rptr >= size {
          rptr := 0;
        }
        items := items[1..];
      }
    }

    method Push(data: T)
      requires Valid()
      modifies this, buffer
      ensures Valid() && items == Pushed(old(items), data, size)
    {
      ghost var before := items;
      var full := IsFull();
      if full {
        Pop();
      }
      ghost var kept := items;
      buffer[wptr] := data;
      wptr := wptr + 1;
      if wptr >= size {
        wptr := 0;
      }
      items := Pushed(before, data, size);
      assert size > 1 ==> items == kept + [data];
    }

    method Get(index: nat) returns (item: T)
      requires Valid() && index < |items|
      ensures item == items[index]
    {
      OneTurn(rptr + index, size);
      item := buffer[(rptr + index) % UINT % size];
    }
  }
}
