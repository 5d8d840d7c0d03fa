/** connector_uart_dma.cpp: the DMA controller fills a circular buffer behind the program's back;
    interrupts move what is new to a queue the reader empties. */
module UartDma {
  import opened Util

  const TS_DMA_BUFFER_SIZE := 32

  class UartDmaTsChannel {
    const dmaBuffer: array<byte>
    var dmaPos: nat                   // hardware: where the next byte goes
    var readPos: nat
    const fifoCapacity: nat
    var fifoRxQueue: seq<byte>
    ghost var stream: seq<byte>       // everything the receiver ever wrote
    ghost var next: nat               // the stream position readPos stands for
    ghost var delivered: seq<byte>    // everything handed to the reader

    ghost predicate Valid()
      reads this, dmaBuffer
    {
      && dmaBuffer.Length == TS_DMA_BUFFER_SIZE
      && dmaPos == |stream| % TS_DMA_BUFFER_SIZE
      && next <= |stream| && readPos == next % TS_DMA_BUFFER_SIZE
      && |fifoRxQueue| <= fifoCapacity && RingHolds(dmaBuffer[..], stream)
    }

    /** The reader's bytes and the queued ones are exactly the start of the stream. */
    ghost predicate Faithful()
      reads this
    {
      next <= |stream| && delivered + fifoRxQueue == stream[..next]
    }

    constructor (capacity: nat)
      ensures Valid() && Faithful() && stream == [] && fresh(dmaBuffer) && fifoCapacity == capacity
    {
      dmaBuffer := new byte[TS_DMA_BUFFER_SIZE](_ => 0);
      fifoCapacity, fifoRxQueue, readPos, dmaPos := capacity, [], 0, 0;
      stream, next, delivered := [], 0, [];
    }

    /** The hardware: one more byte, at the next place of the ring. */
    method Receive(b: byte)
      requires Valid()
      modifies this`stream, this`dmaPos, dmaBuffer
      ensures Valid() && stream == old(stream) + [b]
      ensures old(Faithful()) ==> Faithful()
    {
      ghost var s := stream;
      dmaBuffer[dmaPos] := b;
      NextSlot(|stream|, dmaPos);
      dmaPos := (dmaPos + 1) % TS_DMA_BUFFER_SIZE;
      stream := stream + [b];
      forall j | 0 <= j < |stream| && |stream| - TS_DMA_BUFFER_SIZE <= j
        ensures dmaBuffer[j % TS_DMA_BUFFER_SIZE] == stream[j]
      {
        if j < |s| {
          OtherSlot(j, |s|);
        }
      }
      assert stream[..next] == s[..next];
    }

    /** The hardware's transfer counter, which runs from the buffer size down to one. */
    function TransactionSize(): (n: nat)
      reads this, dmaBuffer
      requires Valid()
      ensures 0 < n <= TS_DMA_BUFFER_SIZE
    {
      TS_DMA_BUFFER_SIZE - dmaPos
    }

    method QueuePut(b: byte) returns (ok: bool)
      modifies this`fifoRxQueue
      ensures ok <==> |old(fifoRxQueue)| < fifoCapacity
      ensures fifoRxQueue == if ok then old(fifoRxQueue) + [b] else old(fifoRxQueue)
    {
      if |fifoRxQueue| < fifoCapacity {
        fifoRxQueue := fifoRxQueue + [b];
        return true;
      }
      return false;
    }

    method ReceiveAll(bytes: seq<byte>)
      requires Valid()
      modifies this`stream, this`dmaPos, dmaBuffer
      ensures Valid() && stream == old(stream) + bytes
    {
      for i := 0 to |bytes|
        invariant Valid() && stream == old(stream) + bytes[..i]
      {
        Receive(bytes[i]);
        assert bytes[..i + 1] == bytes[..i] + [bytes[i]];
      }
      assert bytes[..|bytes|] == bytes;
    }

    /** Moves new bytes until none is left or the queue is full; what did not fit is where the next call
        starts. The hardware keeps writing: `arrivals[i]` comes in before round i of the loop. Each
        round copies the byte its slot holds at that time, which is the right one unless the hardware
        has passed it by a whole ring. */
    method CopyDataFromDMA(arrivals: seq<seq<byte>>) returns (n: nat)
      requires Valid()
      modifies this, dmaBuffer
      ensures Valid() && old(stream) <= stream && delivered == old(delivered)
      ensures var from := Resume(old(next), |old(stream)|);
              && n == Min(|old(stream)| - from, fifoCapacity - |old(fifoRxQueue)|) && next == from + n
              && Copied(old(fifoRxQueue), fifoRxQueue, stream, |old(stream)|, arrivals, from, n)
      ensures (old(Faithful()) && |old(stream)| - old(next) < TS_DMA_BUFFER_SIZE
               && InTime(|old(stream)|, arrivals, old(next), n)) ==> Faithful()
    {
      var end := TS_DMA_BUFFER_SIZE - TransactionSize();
      if end < readPos {
        end := end + TS_DMA_BUFFER_SIZE;
      }
      ghost var from := Resume(next, |stream|);
      RingDistance(next, |stream|);
      hide Resume, Copied, InTime, RingHolds;
      n := CopyUntil(end, arrivals, from);
      next := from + n;
      if old(Faithful()) && from == old(next) && InTime(|old(stream)|, arrivals, from, n) {
        StaysFaithful(delivered, old(fifoRxQueue), fifoRxQueue, old(stream), stream, arrivals, from, n);
      }
    }

    /** The copy loop; returns how many bytes fitted. */
    method CopyUntil(end: nat, arrivals: seq<seq<byte>>, ghost from: nat) returns (n: nat)
      requires Valid() && next <= from <= |stream| < from + TS_DMA_BUFFER_SIZE
      requires readPos == from % TS_DMA_BUFFER_SIZE && end == readPos + |stream| - from
      modifies this`fifoRxQueue, this`readPos, this`stream, this`dmaPos, dmaBuffer
      ensures dmaBuffer.Length == TS_DMA_BUFFER_SIZE && dmaPos == |stream| % TS_DMA_BUFFER_SIZE
      ensures RingHolds(dmaBuffer[..], stream)
      ensures n == Min(|old(stream)| - from, fifoCapacity - |old(fifoRxQueue)|)
      ensures old(stream) <= stream && readPos == (from + n) % TS_DMA_BUFFER_SIZE
      ensures Copied(old(fifoRxQueue), fifoRxQueue, stream, |old(stream)|, arrivals, from, n)
    {
      var newReadPos := readPos;
      var i := readPos;
      n := 0;
      ghost var start, queue := |stream|, fifoRxQueue;
      while i < end
        invariant Valid() && readPos == old(readPos) && i == readPos + n && n <= start - from
        invariant newReadPos == (from + n) % TS_DMA_BUFFER_SIZE == i % TS_DMA_BUFFER_SIZE
        invariant old(stream) <= stream && |stream| == WrittenBefore(start, arrivals, n)
        invariant Copied(queue, fifoRxQueue, stream, start, arrivals, from, n)
      {
        var ok := CopyRound(newReadPos, arrivals, n, start, queue, from);
        if !ok {
          break;
        }
        NextSlot(from + n, i);
        n := n + 1;
        i := i + 1;
        newReadPos := i % TS_DMA_BUFFER_SIZE;
      }
      readPos := newReadPos;
    }

    /** One round: what the hardware writes meanwhile, and the byte in the slot then. */
    method CopyRound(slot: nat, arrivals: seq<seq<byte>>, n: nat, ghost start: nat, ghost queue: seq<byte>, ghost from: nat)
      returns (ok: bool)
      requires Valid() && slot == (from + n) % TS_DMA_BUFFER_SIZE && from + n < start
      requires |stream| == WrittenBefore(start, arrivals, n)
      requires Copied(queue, fifoRxQueue, stream, start, arrivals, from, n)
      modifies this`fifoRxQueue, this`stream, this`dmaPos, dmaBuffer
      ensures Valid() && old(stream) <= stream && |stream| == WrittenBefore(start, arrivals, n + 1)
      ensures ok <==> |old(fifoRxQueue)| < fifoCapacity
      ensures Copied(queue, fifoRxQueue, stream, start, arrivals, from, if ok then n + 1 else n)
    {
      ghost var before, copied := stream, fifoRxQueue;
      WrittenStep(start, arrivals, n);
      ReceiveAll(if n < |arrivals| then arrivals[n] else []);
      CopiedStays(queue, copied, before, stream, start, arrivals, from, n);
      RingSlot(dmaBuffer[..], stream, from + n);
      CopiedStep(queue, copied, stream, start, arrivals, from, n);
      hide Written, Copied, RingHolds, Latest;
      ok := QueuePut(dmaBuffer[slot]);
    }

    /** Takes up to `size` queued bytes. */
    method ReadTimeout(size: nat) returns (bytes: seq<byte>)
      requires Valid()
      modifies this`fifoRxQueue, this`delivered
      ensures Valid() && bytes == old(fifoRxQueue)[..Min(size, |old(fifoRxQueue)|)]
      ensures bytes + fifoRxQueue == old(fifoRxQueue) && delivered == old(delivered) + bytes
      ensures old(Faithful()) ==> Faithful()
    {
      var n := Min(size, |fifoRxQueue|);
      bytes := fifoRxQueue[..n];
      delivered := delivered + bytes;
      fifoRxQueue := fifoRxQueue[n..];
    }
  }

  /** The ring holds the latest bytes of the stream. */
  ghost predicate RingHolds(ring: seq<byte>, stream: seq<byte>) {
    && |ring| == TS_DMA_BUFFER_SIZE
    && forall j :: 0 <= j < |stream| && |stream| - TS_DMA_BUFFER_SIZE <= j ==> ring[j % TS_DMA_BUFFER_SIZE] == stream[j]
  }

  /** How many bytes were received before round i, and by the time that round reads. */
  ghost function WrittenBefore(start: nat, arrivals: seq<seq<byte>>, i: nat): nat {
    start + |Flatten(arrivals[..Min(i, |arrivals|)])|
  }

  ghost function Written(start: nat, arrivals: seq<seq<byte>>, i: nat): nat {
    WrittenBefore(start, arrivals, i + 1)
  }

  lemma {:induction false} WrittenStep(start: nat, arrivals: seq<seq<byte>>, i: nat)
    ensures Written(start, arrivals, i)
         == WrittenBefore(start, arrivals, i + 1)
         == WrittenBefore(start, arrivals, i) + if i < |arrivals| then |arrivals[i]| else 0
  {
    if i < |arrivals| {
      assert arrivals[..i + 1] == arrivals[..i] + [arrivals[i]];
      FlattenSnoc(arrivals[..i], arrivals[i]);
    }
  }

  /** The queue grew by n bytes, each the one its slot held when its round read it. */
  ghost predicate Copied(queue: seq<byte>, queue': seq<byte>, stream: seq<byte>, start: nat, arrivals: seq<seq<byte>>,
                         from: nat, n: nat)
  {
    && queue <= queue' && |queue'| == |queue| + n
    && forall i :: 0 <= i < n ==> CopiedAt(queue', |queue| + i, stream, Written(start, arrivals, i), from + i)
  }

  ghost predicate CopiedAt(queue: seq<byte>, at: nat, stream: seq<byte>, written: nat, j: nat) {
    at < |queue| && j < written <= |stream| && queue[at] == stream[Latest(j, written)]
  }

  /** No round came later than the hardware's next visit to its slot. */
  ghost predicate InTime(start: nat, arrivals: seq<seq<byte>>, from: nat, n: nat) {
    forall i :: 0 <= i < n ==> Written(start, arrivals, i) - i <= from + TS_DMA_BUFFER_SIZE
  }

  lemma {:induction false} CopiedInTime(queue: seq<byte>, queue': seq<byte>, stream: seq<byte>, start: nat,
                                        arrivals: seq<seq<byte>>, from: nat, n: nat)
    requires Copied(queue, queue', stream, start, arrivals, from, n) && from + n <= |stream|
    ensures InTime(start, arrivals, from, n) ==> queue' == queue + stream[from..from + n]
  {
    hide Written, Latest;
    if InTime(start, arrivals, from, n) {
      forall k | |queue| <= k < |queue'| ensures queue'[k] == stream[from + (k - |queue|)] {
        var i := k - |queue|;
        assert CopiedAt(queue', |queue| + i, stream, Written(start, arrivals, i), from + i);
        LatestIff(from + i, Written(start, arrivals, i));
      }
    }
  }

  lemma {:induction false} StaysFaithful(delivered: seq<byte>, queue: seq<byte>, queue': seq<byte>,
                                         stream: seq<byte>, stream': seq<byte>, arrivals: seq<seq<byte>>, from: nat, n: nat)
    requires from + n <= |stream| && delivered + queue == stream[..from] && stream <= stream'
    requires Copied(queue, queue', stream', |stream|, arrivals, from, n) && InTime(|stream|, arrivals, from, n)
    ensures delivered + queue' == stream'[..from + n]
  {
    CopiedInTime(queue, queue', stream', |stream|, arrivals, from, n);
    hide *;
    assert stream[..from] == stream'[..from];
    JoinSlices(stream', 0, from, from + n);
    Associate(delivered, queue, stream'[from..from + n]);
  }

  /** And only those: a round that is late reads the byte of a later position. */
  lemma {:induction false} InTimeIff(start: nat, arrivals: seq<seq<byte>>, from: nat, n: nat)
    requires forall i :: 0 <= i < n ==> from + i < Written(start, arrivals, i)
    ensures InTime(start, arrivals, from, n) <==> forall i :: 0 <= i < n ==> ReadsItsByte(start, arrivals, from, i)
  {
    hide Written, Latest;
    forall i | 0 <= i < n
      ensures ReadsItsByte(start, arrivals, from, i) <==> Written(start, arrivals, i) - i <= from + TS_DMA_BUFFER_SIZE
    {
      LatestIff(from + i, Written(start, arrivals, i));
    }
  }

  /** Round i finds the byte of its own stream position in the ring. */
  ghost predicate ReadsItsByte(start: nat, arrivals: seq<seq<byte>>, from: nat, i: nat) {
    from + i < Written(start, arrivals, i) && Latest(from + i, Written(start, arrivals, i)) == from + i
  }

  lemma {:induction false} CopiedStays(queue: seq<byte>, queue': seq<byte>, stream: seq<byte>, stream': seq<byte>, start: nat,
                                       arrivals: seq<seq<byte>>, from: nat, n: nat)
    requires Copied(queue, queue', stream, start, arrivals, from, n) && stream <= stream'
    ensures Copied(queue, queue', stream', start, arrivals, from, n)
  {
    hide Written, Latest;
    forall i | 0 <= i < n ensures CopiedAt(queue', |queue| + i, stream', Written(start, arrivals, i), from + i) {
      assert CopiedAt(queue', |queue| + i, stream, Written(start, arrivals, i), from + i);
    }
  }

  lemma {:induction false} CopiedStep(queue: seq<byte>, queue': seq<byte>, stream: seq<byte>, start: nat,
                                      arrivals: seq<seq<byte>>, from: nat, n: nat)
    requires Copied(queue, queue', stream, start, arrivals, from, n)
    requires from + n < Written(start, arrivals, n) == |stream|
    ensures Copied(queue, queue' + [stream[Latest(from + n, |stream|)]], stream, start, arrivals, from, n + 1)
  {
    hide Written, Latest;
    var q := queue' + [stream[Latest(from + n, |stream|)]];
    forall i | 0 <= i < n + 1 ensures CopiedAt(q, |queue| + i, stream, Written(start, arrivals, i), from + i) {
      assert i < n ==> CopiedAt(queue', |queue| + i, stream, Written(start, arrivals, i), from + i);
    }
  }

  lemma {:induction false} RingSlot(ring: seq<byte>, stream: seq<byte>, j: nat)
    requires RingHolds(ring, stream) && j < |stream|
    ensures ring[j % TS_DMA_BUFFER_SIZE] == stream[Latest(j, |stream|)]
  {
    LatestIff(j, |stream|);
    hide Latest;
  }

  /** The stream position whose byte is in the slot of position j when w bytes were received. */
  ghost function Latest(j: nat, w: nat): (l: nat)
    requires j < w
    ensures j <= l < w
  {
    j + (w - 1 - j) / TS_DMA_BUFFER_SIZE * TS_DMA_BUFFER_SIZE
  }

  /** A slot still holds its byte if and only if the hardware is not a whole ring past it. */
  lemma {:induction false} LatestIff(j: nat, w: nat)
    requires j < w
    ensures Latest(j, w) == j <==> w <= j + TS_DMA_BUFFER_SIZE
    ensures w - TS_DMA_BUFFER_SIZE <= Latest(j, w) && Latest(j, w) % TS_DMA_BUFFER_SIZE == j % TS_DMA_BUFFER_SIZE
  {
  }

  /** Where the handler takes up the stream when it stopped at `next` and the receiver is at `end`. */
  ghost function Resume(next: nat, end: nat): nat
    requires next <= end
  {
    next + (end - next) / TS_DMA_BUFFER_SIZE * TS_DMA_BUFFER_SIZE
  }

  /** Two positions less than a ring length apart use different slots. */
  lemma {:induction false} OtherSlot(j: nat, w: nat)
    requires j < w < j + TS_DMA_BUFFER_SIZE
    ensures j % TS_DMA_BUFFER_SIZE != w % TS_DMA_BUFFER_SIZE
  {
  }

  lemma {:induction false} NextSlot(a: nat, b: nat)
    requires a % TS_DMA_BUFFER_SIZE == b % TS_DMA_BUFFER_SIZE
    ensures (a + 1) % TS_DMA_BUFFER_SIZE == (b + 1) % TS_DMA_BUFFER_SIZE
  {
  }

  /** The distance the interrupt handler works out is the true one, less any whole ring lengths. */
  lemma {:induction false} RingDistance(next: nat, end: nat)
    requires next <= end
    ensures var r, w := next % TS_DMA_BUFFER_SIZE, end % TS_DMA_BUFFER_SIZE;
            var seen := (if w < r then w + TS_DMA_BUFFER_SIZE else w) - r;
            var from := Resume(next, end);
            && next <= from <= end && (from == next <==> end - next < TS_DMA_BUFFER_SIZE)
            && seen == (end - next) % TS_DMA_BUFFER_SIZE == end - from
            && from % TS_DMA_BUFFER_SIZE == r
  {
  }
}
