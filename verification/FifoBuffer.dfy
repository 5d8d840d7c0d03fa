/** fifo_buffer over cyclic_buffer: a byte queue in a fixed circular array. */
module FifoBuffers {
  import opened Util

  class FifoBuffer {
    const elements: array<byte>
    var currentIndex: nat      // next slot to write
    var currentIndexRead: nat  // next slot to read
    var count: nat

    ghost predicate Valid()
      reads this, elements
    {
      && 0 < elements.Length && currentIndex < elements.Length && currentIndexRead < elements.Length
      && count <= elements.Length
      && currentIndex == Slot(count)
    }

    ghost function Slot(i: nat): nat
      reads this, elements
      requires currentIndexRead < elements.Length && i <= elements.Length
    {
      if currentIndexRead + i < elements.Length then currentIndexRead + i else currentIndexRead + i - elements.Length
    }

    ghost function Contents(): (s: seq<byte>)
      reads this, elements
      requires Valid()
      ensures |s| == count
    {
      seq(count, i requires 0 <= i < count && Valid() reads this, elements => elements[Slot(i)])
    }

    constructor (size: nat)
      requires 0 < size
      ensures Valid() && Contents() == [] && elements.Length == size && currentIndexRead == 0 && fresh(elements)
    {
      elements := new byte[size](_ => 0);
      currentIndex, currentIndexRead, count := 0, 0, 0;
    }

    /** cyclic_buffer::add */
    method Add(item: byte)
      requires Valid() && count < elements.Length
      modifies this, elements
      ensures Valid() && Contents() == old(Contents()) + [item] && currentIndexRead == old(currentIndexRead)
    {
      var idx := currentIndex;
      elements[idx] := item;
      idx := idx + 1;
      if idx == elements.Length {
        idx := 0;
      }
      currentIndex := idx;
      count := count + 1;
    }

    method Put(item: byte) returns (ok: bool)
      requires Valid()
      modifies this, elements
      ensures Valid() && currentIndexRead == old(currentIndexRead)
      ensures ok <==> old(count) < elements.Length
      ensures Contents() == if ok then old(Contents()) + [item] else old(Contents())
    {
      if count < elements.Length {
        Add(item);
        return true;
      }
      return false;
    }

    /** Everything that fits is queued; the first item that does not fit ends the transfer. */
    method PutAll(items: seq<byte>) returns (ok: bool)
      requires Valid()
      modifies this, elements
      ensures Valid() && currentIndexRead == old(currentIndexRead)
      ensures ok <==> |items| <= elements.Length - old(count)
      ensures Contents() == Stored(old(Contents()), items, elements.Length)
    {
      for i := 0 to |items|
        invariant Valid() && currentIndexRead == old(currentIndexRead)
        invariant i <= elements.Length - old(count)
        invariant Contents() == old(Contents()) + items[..i]
      {
        var put := Put(items[i]);
        if !put {
          return false;
        }
        assert items[..i] + [items[i]] == items[..i + 1];
      }
      assert items[..|items|] == items;
      return true;
    }

    method Get() returns (item: byte)
      requires Valid() && 0 < count
      modifies this
      ensures Valid() && item == old(Contents())[0] && Contents() == old(Contents())[1..]
    {
      item := elements[currentIndexRead];
      SmallMod(currentIndexRead + 1, elements.Length);
      currentIndexRead := (currentIndexRead + 1) % elements.Length;
      count := count - 1;
    }

    method Clear()
      requires Valid()
      modifies this, elements
      ensures Valid() && Contents() == [] && currentIndexRead == 0
    {
      forall i | 0 <= i < elements.Length {
        elements[i] := 0;
      }
      count, currentIndex, currentIndexRead := 0, 0, 0;
    }
  }

  /** What a queue of this capacity holds after being offered `items`. */
  function Stored(fifo: seq<byte>, items: seq<byte>, capacity: nat): (r: seq<byte>)
    requires |fifo| <= capacity
    ensures |r| <= capacity && fifo <= r
  {
    fifo + items[..Min(|items|, capacity - |fifo|)]
  }

  lemma {:induction false} StoredIs(fifo: seq<byte>, items: seq<byte>, capacity: nat)
    requires |fifo| <= capacity
    ensures |fifo| + |items| <= capacity ==> Stored(fifo, items, capacity) == fifo + items
    ensures |fifo| == capacity ==> Stored(fifo, items, capacity) == fifo
  {
    assert items[..|items|] == items && fifo + [] == fifo;
  }

  lemma {:induction false} SmallMod(x: nat, n: nat)
    requires 0 < n && x <= n
    ensures x % n == if x == n then 0 else x
  {
  }
}
