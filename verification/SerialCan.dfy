/** serial_can.cpp: a byte stream over ISO-TP frames. The class follows CanStreamerState
    method by method; the functions before it say what each method computes. */
module SerialCan {
  import opened Util
  import opened IsoTp
  import opened FifoBuffers

  const CAN_FIFO_BUF_SIZE := 76
  const FLOW_STATUS_OK := 0
  const FLOW_STATUS_WAIT_MORE := 1

  /** Everything a call can see or change apart from the transmit FIFO. */
  datatype Link = Link(reassembly: Reassembly, rxFifo: seq<byte>, inbox: seq<CanFrame>, sent: seq<CanFrame>)

  ghost predicate Sound(l: Link) {
    |l.rxFifo| <= CAN_FIFO_BUF_SIZE && AllReadable(l.inbox)
  }

  /** One received frame offered to a reader with room for `num` bytes: the bytes that reader gets,
      and the link afterwards. Surplus bytes go to the FIFO and a FirstFrame is answered. */
  ghost function Receive(l: Link, f: CanFrame, num: nat): (r: (seq<byte>, Link))
    requires Sound(l) && Readable(f)
    ensures Sound(r.1) && r.1.inbox == l.inbox && |r.0| <= num
  {
    match Decode(l.reassembly, f)
    case Ignored => ([], l)
    case Data(payload, next) =>
      var n := Min(num, |payload|);
      (payload[..n], Link(next, Stored(l.rxFifo, payload[n..], CAN_FIFO_BUF_SIZE), l.inbox,
                          if IsFirst(f) then l.sent + [FLOW_CONTROL_OK] else l.sent))
  }

  /** Waiting for permission to continue after a FirstFrame. Whatever frame arrives is also
      processed as data; up to three "wait" answers are tolerated. */
  ghost function AwaitFlowControl(l: Link, received: nat): (r: (bool, Link))
    requires Sound(l)
    ensures Sound(r.1)
    decreases |l.inbox|
  {
    if l.inbox == [] then (false, l) else
      var f := l.inbox[0];
      var l1 := Receive(l.(inbox := l.inbox[1..]), f, 0).1;
      var status := f.data8[0] % 16;
      if status == FLOW_STATUS_OK then (true, l1)
      else if status == FLOW_STATUS_WAIT_MORE && received < 3 then AwaitFlowControl(l1, received + 1)
      else (false, l1)
  }

  /** Sending one message: how many bytes are reported sent, and the link afterwards. */
  ghost function Send(l: Link, message: seq<byte>): (r: (nat, Link))
    requires Sound(l)
    ensures Sound(r.1) && r.0 <= |message|
  {
    if |message| <= 7 then (|message|, l.(sent := l.sent + Segment(message)))
    else
      var (go, l1) := AwaitFlowControl(l.(sent := l.sent + [Encode(FirstFrame(|message|), message)]), 0);
      if go then (|message|, l1.(sent := l1.sent + Consecutives(message[6..], 1))) else (0, l1)
  }

  /** Adding to the stream: every time the transmit FIFO fills up it is sent as one message. */
  ghost function Add(l: Link, tx: seq<byte>, data: seq<byte>, size: nat): (r: (seq<byte>, Link))
    requires Sound(l) && |tx| <= size && 0 < size
    ensures Sound(r.1) && |r.0| <= size
    decreases |data|, |tx|
  {
    if |data| < size - |tx| then (tx + data, l)
    else
      var k := size - |tx|;
      var full := tx + data[..k];
      var (n, l1) := Send(l, full);
      if n < 1 then (full, l1) else Add(l1, [], data[k..], size)
  }

  /** The next queued frame, offered to a reader with room for `space` bytes. */
  ghost function Next(l: Link, space: nat): (r: (seq<byte>, Link))
    requires Sound(l) && l.inbox != []
    ensures Sound(r.1) && r.1.inbox == l.inbox[1..] && |r.0| <= space
  {
    Receive(l.(inbox := l.inbox[1..]), l.inbox[0], space)
  }

  /** Reading frames until `space` bytes were obtained, none is left, or one yields nothing. */
  ghost function Pull(l: Link, space: nat): (r: (seq<byte>, Link))
    requires Sound(l)
    ensures Sound(r.1) && |r.0| <= space
    decreases |l.inbox|
  {
    if space == 0 || l.inbox == [] then ([], l) else
      var (bytes, l1) := Next(l, space);
      if |bytes| < 1 then ([], l1)
      else var (more, l2) := Pull(l1, space - |bytes|); (bytes + more, l2)
  }

  /** A read of up to `num` bytes: leftovers first, then new frames. */
  ghost function Read(l: Link, num: nat): (r: (seq<byte>, Link))
    requires Sound(l)
    ensures Sound(r.1) && |r.0| <= num
  {
    var n := Min(num, |l.rxFifo|);
    var (more, l1) := Pull(l.(rxFifo := l.rxFifo[n..]), num - n);
    (l.rxFifo[..n] + more, l1)
  }

  lemma {:induction false} AddStep(l: Link, tx: seq<byte>, txbuf: seq<byte>, offset: nat, size: nat)
    requires Sound(l) && |tx| <= size && 0 < size && offset <= |txbuf|
    ensures txbuf[0..] == txbuf
    ensures var k := size - |tx|;
            if |txbuf| - offset < k then Add(l, tx, txbuf[offset..], size) == (tx + txbuf[offset..], l)
            else
              var full := tx + txbuf[offset..offset + k];
              var (n, l1) := Send(l, full);
              Add(l, tx, txbuf[offset..], size) == if n < 1 then (full, l1) else Add(l1, [], txbuf[offset + k..], size)
  {
    hide Send;
    var data, k := txbuf[offset..], size - |tx|;
    if k <= |data| {
      SliceOfTail(txbuf, offset, 0, k);
      assert data[..k] == data[0..k] && data[k..] == txbuf[offset + k..];
    }
  }

  /** A pull that has obtained `got` so far and stands at `l`. */
  ghost predicate Pulling(goal: (seq<byte>, Link), got: seq<byte>, l: Link, space: nat) {
    Sound(l) && goal.0 == got + Pull(l, space).0 && goal.1 == Pull(l, space).1
  }

  lemma {:induction false} StartPulling(l: Link, space: nat)
    requires Sound(l)
    ensures Pulling(Pull(l, space), [], l, space)
  {
    assert [] + Pull(l, space).0 == Pull(l, space).0;
  }

  lemma {:induction false} PullStep(goal: (seq<byte>, Link), got: seq<byte>, l: Link, space: nat)
    requires Pulling(goal, got, l, space)
    ensures l.inbox == [] || space == 0 ==> goal == (got, l)
    ensures l.inbox != [] && space > 0 ==>
              var (bytes, l1) := Next(l, space);
              if |bytes| < 1 then goal == (got + bytes, l1) else Pulling(goal, got + bytes, l1, space - |bytes|)
  {
    hide Next;
    assert got + [] == got;
    if l.inbox != [] && space > 0 {
      var (bytes, l1) := Next(l, space);
      var more := if |bytes| < 1 then [] else Pull(l1, space - |bytes|).0;
      assert got + (bytes + more) == (got + bytes) + more;
    }
  }

  method MemCopy(dst: array<byte>, at: nat, src: seq<byte>)
    requires at + |src| <= dst.Length
    modifies dst
    ensures dst[..] == old(dst[..at]) + src + old(dst[at + |src|..])
  {
    forall i | 0 <= i < |src| {
      dst[at + i] := src[i];
    }
  }

  /** The protocol bytes of a frame, and where and how much payload may follow. */
  method WriteHeader(header: IsoTpFrameHeader, txmsg: array<byte>) returns (offset: nat, maxNumBytes: nat)
    requires txmsg.Length == 8 && txmsg[..] == Zeros(8)
    modifies txmsg
    ensures offset == |Prefix(header)| && offset + maxNumBytes <= 8 && txmsg[..] == Prefix(header) + Zeros(8 - offset)
    ensures forall n: nat :: PayloadSize(header, n) == Min(maxNumBytes, n)
  {
    match header {
      case SingleFrame(n) =>
        offset := 1;
        maxNumBytes := Min(n, 8 - offset);
        txmsg[0] := FRAME_SINGLE * 16 + maxNumBytes;
      case FirstFrame(n) =>
        txmsg[0] := FRAME_FIRST * 16 + n / 256 % 16;
        txmsg[1] := n % 256;
        offset := 2;
        maxNumBytes := Min(n, 8 - offset);
      case ConsecutiveFrame(index) =>
        txmsg[0] := FRAME_CONSECUTIVE * 16 + index % 16;
        offset := 1;
        maxNumBytes := 8 - offset;
      case FlowControlFrame(flag, block, time) =>
        txmsg[0] := FRAME_FLOW_CONTROL * 16 + flag % 16;
        txmsg[1] := block % 256;
        txmsg[2] := time % 256;
        offset := 3;
        maxNumBytes := 0;
    }
  }

  method WritePayload(txmsg: array<byte>, offset: nat, data: seq<byte>)
    requires offset + |data| <= txmsg.Length
    modifies txmsg
    ensures txmsg[..] == old(txmsg[..offset]) + data + old(txmsg[offset + |data|..])
  {
    for i := 0 to |data|
      invariant forall j :: 0 <= j < txmsg.Length ==>
                  txmsg[j] == if offset <= j < offset + i then data[j - offset] else old(txmsg[j])
    {
      txmsg[offset + i] := data[i];
    }
  }

  lemma {:induction false} Overlay(a: seq<byte>, b: seq<byte>, i: nat)
    requires i < |a| && i < |b|
    ensures a[i..][0] == a[i] && a[i..][1..] == a[i + 1..]
    ensures (a[..i] + b[i..])[i := a[i]] == a[..i + 1] + b[i + 1..]
  {
  }

  lemma {:induction false} FrameBytes(header: IsoTpFrameHeader, data: seq<byte>, bytes: seq<byte>)
    requires var p, n := Prefix(header), PayloadSize(header, |data|);
             && n <= |data| && |p| + n <= 8
             && bytes == (p + Zeros(8 - |p|))[..|p|] + data[..n] + (p + Zeros(8 - |p|))[|p| + n..]
    ensures |bytes| == 8 && CanFrame(8, bytes) == Encode(header, data)
  {
    var p, n := Prefix(header), PayloadSize(header, |data|);
    assert (p + Zeros(8 - |p|))[..|p|] == p;
    assert (p + Zeros(8 - |p|))[|p| + n..] == Zeros(8 - |p| - n);
  }

  /** The CAN driver as the streamer sees it: transmit never fails, receive takes the next
      queued frame or times out. */
  class CanStreamer {
    var sent: seq<CanFrame>
    var inbox: seq<CanFrame>

    method Transmit(frame: CanFrame)
      modifies this`sent
      ensures sent == old(sent) + [frame]
    {
      sent := sent + [frame];
    }

    method Receive() returns (frame: Option<CanFrame>)
      modifies this`inbox
      ensures old(inbox) == [] ==> frame == None && inbox == []
      ensures old(inbox) != [] ==> frame == Some(old(inbox)[0]) && inbox == old(inbox)[1..]
    {
      if inbox == [] {
        return None;
      }
      frame := Some(inbox[0]);
      inbox := inbox[1..];
    }
  }

  class CanStreamerState {
    const rxFifoBuf: FifoBuffer
    const txFifoBuf: FifoBuffer
    const streamer: CanStreamer
    var waitingForNumBytes: int
    var waitingForFrameIndex: int

    ghost predicate Valid()
      reads this, rxFifoBuf, rxFifoBuf.elements, txFifoBuf, txFifoBuf.elements, streamer
    {
      && rxFifoBuf != txFifoBuf && rxFifoBuf.elements != txFifoBuf.elements
      && rxFifoBuf.Valid() && rxFifoBuf.elements.Length == CAN_FIFO_BUF_SIZE
      && txFifoBuf.Valid() && txFifoBuf.currentIndexRead == 0
      && AllReadable(streamer.inbox)
    }

    ghost function State(): (l: Link)
      reads this, rxFifoBuf, rxFifoBuf.elements, txFifoBuf, txFifoBuf.elements, streamer
      requires Valid()
      ensures Sound(l) && l.rxFifo == rxFifoBuf.Contents()
    {
      Link(Reassembly(waitingForNumBytes, waitingForFrameIndex), rxFifoBuf.Contents(), streamer.inbox, streamer.sent)
    }

    /** The bytes waiting to be sent. */
    ghost function Pending(): (s: seq<byte>)
      reads txFifoBuf, txFifoBuf.elements
      requires txFifoBuf.Valid()
      ensures |s| == txFifoBuf.count <= txFifoBuf.elements.Length
    {
      txFifoBuf.Contents()
    }

    constructor (s: CanStreamer, txSize: nat)
      requires 0 < txSize && AllReadable(s.inbox)
      ensures Valid() && Pending() == [] && txFifoBuf.elements.Length == txSize && streamer == s
      ensures State() == Link(Reassembly(0, 0), [], s.inbox, s.sent)
      ensures fresh(rxFifoBuf) && fresh(rxFifoBuf.elements) && fresh(txFifoBuf) && fresh(txFifoBuf.elements)
    {
      rxFifoBuf := new FifoBuffer(CAN_FIFO_BUF_SIZE);
      txFifoBuf := new FifoBuffer(txSize);
      streamer := s;
      waitingForNumBytes, waitingForFrameIndex := 0, 0;
    }

    method SendFrame(header: IsoTpFrameHeader, data: seq<byte>) returns (numBytes: nat)
      modifies streamer`sent
      ensures numBytes == PayloadSize(header, |data|)
      ensures streamer.sent == old(streamer.sent) + [Encode(header, data)]
    {
      hide Encode, Prefix, PayloadSize;
      var txmsg := new byte[8](_ => 0);
      assert txmsg[..] == Zeros(8);
      var offset, maxNumBytes := WriteHeader(header, txmsg);
      numBytes := Min(maxNumBytes, |data|);
      WritePayload(txmsg, offset, data[..numBytes]);
      FrameBytes(header, data, txmsg[..]);
      streamer.Transmit(CanFrame(8, txmsg[..]));
    }

    /** The first half of receiveFrame: where the payload is, and what is expected next.
        `waitingForNumBytes` is still to be reduced by the payload. */
    method ParseFrame(rxmsg: CanFrame) returns (accepted: bool, srcBuf: nat, numBytesAvailable: nat)
      requires Readable(rxmsg)
      modifies this
      ensures accepted ==> rxmsg.dlc >= 1 && srcBuf + numBytesAvailable <= 8
      ensures Decode(old(Reassembly(waitingForNumBytes, waitingForFrameIndex)), rxmsg)
           == if accepted
              then Data(rxmsg.data8[srcBuf..srcBuf + numBytesAvailable],
                        Reassembly(waitingForNumBytes - numBytesAvailable, waitingForFrameIndex))
              else Ignored
      ensures !accepted ==> unchanged(this)
    {
      srcBuf, numBytesAvailable := 0, 0;
      if rxmsg.dlc < 1 {
        return false, 0, 0;
      }
      var frameType := rxmsg.data8[0] / 16;
      var low: int := rxmsg.data8[0] % 16;
      if frameType == FRAME_SINGLE {
        numBytesAvailable := low;
        srcBuf := 1;
        waitingForNumBytes := -1;
      } else if frameType == FRAME_FIRST {
        waitingForNumBytes := low * 256 + rxmsg.data8[1];
        waitingForFrameIndex := 1;
        numBytesAvailable := Min(waitingForNumBytes, 6);
        srcBuf := 2;
      } else if frameType == FRAME_CONSECUTIVE {
        if waitingForNumBytes < 0 || waitingForFrameIndex != low {
          return false, 0, 0;
        }
        numBytesAvailable := Min(waitingForNumBytes, 7);
        srcBuf := 1;
        waitingForFrameIndex := (waitingForFrameIndex + 1) % 16;
      } else {
        return false, 0, 0;
      }
      return true, srcBuf, numBytesAvailable;
    }

    /** The end of receiveFrame: surplus bytes are queued, a FirstFrame is acknowledged. */
    method KeepRest(payload: seq<byte>, numBytesToCopy: nat, first: bool)
      requires Valid() && numBytesToCopy <= |payload|
      modifies this, rxFifoBuf, rxFifoBuf.elements, streamer`sent
      ensures Valid() && Pending() == old(Pending())
      ensures State() == Link(Reassembly(old(waitingForNumBytes) - |payload|, old(waitingForFrameIndex)),
                              Stored(old(rxFifoBuf.Contents()), payload[numBytesToCopy..], CAN_FIFO_BUF_SIZE),
                              old(streamer.inbox),
                              old(streamer.sent) + if first then [FLOW_CONTROL_OK] else [])
    {
      waitingForNumBytes := waitingForNumBytes - |payload|;
      var _ := rxFifoBuf.PutAll(payload[numBytesToCopy..]);
      if first {
        var _ := SendFrame(CONTINUE_TO_SEND, []);
      }
    }

    method ReceiveFrame(rxmsg: CanFrame, buf: array?<byte>, at: nat, num: nat) returns (numBytesToCopy: nat)
      requires Valid() && Readable(rxmsg)
      requires buf != null ==> at + num <= buf.Length && buf != rxFifoBuf.elements && buf != txFifoBuf.elements
      modifies this, rxFifoBuf, rxFifoBuf.elements, streamer`sent, buf
      ensures Valid() && Pending() == old(Pending())
      ensures State() == Receive(old(State()), rxmsg, num).1
      ensures numBytesToCopy == |Receive(old(State()), rxmsg, num).0|
      ensures buf != null ==>
                buf[..] == old(buf[..at]) + Receive(old(State()), rxmsg, num).0 + old(buf[at + numBytesToCopy..])
    {
      hide Decode, Stored;
      var accepted, srcBuf, numBytesAvailable := ParseFrame(rxmsg);
      if !accepted {
        return 0;
      }
      var payload := rxmsg.data8[srcBuf..srcBuf + numBytesAvailable];
      numBytesToCopy := Min(num, numBytesAvailable);
      if buf != null {
        MemCopy(buf, at, payload[..numBytesToCopy]);
      }
      KeepRest(payload, numBytesToCopy, rxmsg.data8[0] / 16 == FRAME_FIRST);
    }

    /** The wait for a flow control frame inside sendDataTimeout. */
    method ReceiveFlowControl() returns (go: bool)
      requires Valid()
      modifies this, rxFifoBuf, rxFifoBuf.elements, streamer
      ensures Valid() && Pending() == old(Pending())
      ensures go == AwaitFlowControl(old(State()), 0).0 && State() == AwaitFlowControl(old(State()), 0).1
    {
      var numFcReceived := 0;
      while true
        invariant Valid() && Pending() == old(Pending())
        invariant AwaitFlowControl(State(), numFcReceived) == AwaitFlowControl(old(State()), 0)
        decreases |streamer.inbox|
      {
        var received := streamer.Receive();
        if received == None {
          return false;
        }
        var rxmsg := received.value;
        var _ := ReceiveFrame(rxmsg, null, 0, 0);
        var flowStatus := rxmsg.data8[0] % 16;
        if flowStatus == FLOW_STATUS_OK {
          return true;
        }
        if !(flowStatus == FLOW_STATUS_WAIT_MORE && numFcReceived < 3) {
          return false;
        }
        numFcReceived := numFcReceived + 1;
      }
    }

    /** The loop of sendDataTimeout: everything after the FirstFrame. */
    method SendConsecutives(txbuf: seq<byte>) returns (totalNumSent: nat)
      modifies streamer`sent
      ensures totalNumSent == |txbuf| && streamer.sent == old(streamer.sent) + Consecutives(txbuf, 1)
    {
      hide Consecutives, Encode;
      var offset, idx := 0, 1;
      totalNumSent := 0;
      ghost var rest := txbuf;
      while offset < |txbuf|
        invariant offset == totalNumSent <= |txbuf| && 1 <= idx && rest == txbuf[offset..]
        invariant streamer.sent + Consecutives(rest, idx) == old(streamer.sent) + Consecutives(txbuf, 1)
      {
        ConsecutivesStep(rest, idx);
        var len := Min(|txbuf| - offset, 7);
        assert txbuf[offset..offset + len] == rest[..len];
        var numSent := SendFrame(ConsecutiveFrame(idx % 16), txbuf[offset..offset + len]);
        rest := rest[len..];
        idx := idx + 1;
        totalNumSent := totalNumSent + numSent;
        offset := offset + numSent;
      }
      NothingDelivered(Reassembly(0, 0), idx);
      assert streamer.sent + [] == streamer.sent;
    }

    method SendDataTimeout(txbuf: seq<byte>) returns (totalNumSent: nat)
      requires Valid()
      modifies this, rxFifoBuf, rxFifoBuf.elements, streamer
      ensures Valid() && Pending() == old(Pending())
      ensures totalNumSent == Send(old(State()), txbuf).0 && State() == Send(old(State()), txbuf).1
    {
      hide AwaitFlowControl, Consecutives, Encode;
      var numBytes := |txbuf|;
      if numBytes < 1 {
        assert streamer.sent + [] == streamer.sent;
        return 0;
      }
      if numBytes <= 7 {
        totalNumSent := SendFrame(SingleFrame(numBytes), txbuf);
        return;
      }
      totalNumSent := SendFrame(FirstFrame(numBytes), txbuf);
      var go := ReceiveFlowControl();
      if !go {
        return 0;
      }
      var rest := SendConsecutives(txbuf[totalNumSent..]);
      totalNumSent := totalNumSent + rest;
    }

    /** Moves leftover bytes to the reader; returns how many. */
    method GetDataFromFifo(rxbuf: array<byte>, numBytes: nat) returns (i: nat)
      requires Valid() && numBytes <= rxbuf.Length
      requires rxbuf != rxFifoBuf.elements && rxbuf != txFifoBuf.elements
      modifies rxFifoBuf, rxbuf
      ensures Valid() && Pending() == old(Pending())
      ensures i == Min(numBytes, old(rxFifoBuf.count))
      ensures State() == old(State()).(rxFifo := old(rxFifoBuf.Contents())[i..])
      ensures rxbuf[..] == old(rxFifoBuf.Contents())[..i] + old(rxbuf[i..])
    {
      hide State, Pending;
      ghost var start, was := State(), rxbuf[..];
      ghost var stored := start.rxFifo;
      var numReadFromFifo := Min(numBytes, rxFifoBuf.count);
      i := 0;
      assert stored[0..] == stored && stored[..0] + was[0..] == was;
      while rxFifoBuf.count > 0 && i < numReadFromFifo
        invariant i <= numReadFromFifo <= |stored| && Valid() && Pending() == old(Pending())
        invariant State() == start.(rxFifo := stored[i..]) && rxbuf[..] == stored[..i] + was[i..]
      {
        MoveByte(rxbuf, i);
        Overlay(stored, was, i);
        i := i + 1;
      }
    }

    method MoveByte(rxbuf: array<byte>, i: nat)
      requires Valid() && 0 < rxFifoBuf.count && i < rxbuf.Length
      requires rxbuf != rxFifoBuf.elements && rxbuf != txFifoBuf.elements
      modifies rxFifoBuf, rxbuf
      ensures Valid() && Pending() == old(Pending()) && rxFifoBuf.count == old(rxFifoBuf.count) - 1
      ensures State() == old(State()).(rxFifo := old(rxFifoBuf.Contents())[1..])
      ensures rxbuf[..] == old(rxbuf[..])[i := old(rxFifoBuf.Contents())[0]]
    {
      var item := rxFifoBuf.Get();
      rxbuf[i] := item;
    }

    /** sendDataTimeout on the raw FIFO array, which starts with the queued bytes
        because nothing is ever read from this FIFO. */
    method SendBuffered() returns (numSent: nat)
      requires Valid()
      modifies this, rxFifoBuf, rxFifoBuf.elements, streamer
      ensures Valid() && Pending() == old(Pending())
      ensures numSent == Send(old(State()), old(Pending())).0 && State() == Send(old(State()), old(Pending())).1
    {
      assert txFifoBuf.elements[..txFifoBuf.count] == Pending();
      numSent := SendDataTimeout(txFifoBuf.elements[..txFifoBuf.count]);
    }

    /** Queues bytes to be sent; what does not fit is dropped. */
    method QueueTx(items: seq<byte>)
      requires Valid()
      modifies txFifoBuf, txFifoBuf.elements
      ensures Valid() && State() == old(State())
      ensures Pending() == Stored(old(Pending()), items, txFifoBuf.elements.Length)
    {
      hide Stored;
      var _ := txFifoBuf.PutAll(items);
    }

    /** One round of the loop below: the chunk fills the FIFO, which is sent and, on success, emptied. */
    method FillAndSend(chunk: seq<byte>) returns (numSent: nat)
      requires Valid() && |chunk| == txFifoBuf.elements.Length - txFifoBuf.count
      modifies this, rxFifoBuf, rxFifoBuf.elements, txFifoBuf, txFifoBuf.elements, streamer
      ensures Valid()
      ensures numSent == Send(old(State()), old(Pending()) + chunk).0
      ensures State() == Send(old(State()), old(Pending()) + chunk).1
      ensures Pending() == if numSent < 1 then old(Pending()) + chunk else []
    {
      hide Send, Stored;
      StoredIs(Pending(), chunk, txFifoBuf.elements.Length);
      QueueTx(chunk);
      numSent := SendBuffered();
      if numSent >= 1 {
        txFifoBuf.Clear();
      }
    }

    /** Returns normally whatever happens; if the peer never allows a message to continue, that
        message stays in the FIFO and the rest of the offered bytes is dropped. */
    method StreamAddToTxTimeout(txbuf: seq<byte>)
      requires Valid()
      modifies this, rxFifoBuf, rxFifoBuf.elements, txFifoBuf, txFifoBuf.elements, streamer
      ensures Valid()
      ensures Pending() == Add(old(State()), old(Pending()), txbuf, txFifoBuf.elements.Length).0
      ensures State() == Add(old(State()), old(Pending()), txbuf, txFifoBuf.elements.Length).1
    {
      hide Send, Add, Stored, State;
      var size := txFifoBuf.elements.Length;
      var offset := 0;
      ghost var goal := Add(State(), Pending(), txbuf, size);
      AddStep(State(), Pending(), txbuf, 0, size);
      while |txbuf| - offset >= size - txFifoBuf.count
        invariant offset <= |txbuf|
        invariant Valid() && Add(State(), Pending(), txbuf[offset..], size) == goal
        decreases |txbuf| - offset, txFifoBuf.count
      {
        var numBytesToAdd := size - txFifoBuf.count;
        AddStep(State(), Pending(), txbuf, offset, size);
        var numSent := FillAndSend(txbuf[offset..offset + numBytesToAdd]);
        if numSent < 1 {
          break;
        }
        offset := offset + numBytesToAdd;
      }
      AddStep(State(), Pending(), txbuf, offset, size);
      StoredIs(Pending(), txbuf[offset..], size);
      QueueTx(txbuf[offset..]);
    }

    method StreamFlushTx()
      requires Valid()
      modifies this, rxFifoBuf, rxFifoBuf.elements, txFifoBuf, txFifoBuf.elements, streamer
      ensures Valid() && Pending() == []
      ensures State() == Send(old(State()), old(Pending())).1
    {
      var _ := SendBuffered();
      txFifoBuf.Clear();
    }

    /** One round of the loop below: the next frame, if there is one. */
    method ReceiveNext(rxbuf: array<byte>, at: nat, space: nat) returns (ok: bool, numReceived: nat)
      requires Valid() && at + space <= rxbuf.Length
      requires rxbuf != rxFifoBuf.elements && rxbuf != txFifoBuf.elements
      modifies this, rxFifoBuf, rxFifoBuf.elements, streamer, rxbuf
      ensures Valid() && Pending() == old(Pending())
      ensures ok == (old(State()).inbox != [])
      ensures !ok ==> State() == old(State()) && rxbuf[..] == old(rxbuf[..])
      ensures ok ==>
                && |streamer.inbox| < |old(streamer.inbox)|
                && numReceived == |Next(old(State()), space).0| && State() == Next(old(State()), space).1
                && rxbuf[..at + numReceived] == old(rxbuf[..at]) + Next(old(State()), space).0
    {
      hide Receive;
      numReceived := 0;
      var received := streamer.Receive();
      ok := received != None;
      if ok {
        numReceived := ReceiveFrame(received.value, rxbuf, at, space);
      }
    }

    /** One round on behalf of a read that has obtained `got` in rxbuf[at..]. */
    method ReceiveRound(rxbuf: array<byte>, at: nat, space: nat, ghost goal: (seq<byte>, Link), ghost got: seq<byte>)
      returns (more: bool, numReceived: nat, ghost got': seq<byte>)
      requires Valid() && at + space <= rxbuf.Length && 0 < space
      requires rxbuf != rxFifoBuf.elements && rxbuf != txFifoBuf.elements
      requires Pulling(goal, got, State(), space)
      modifies this, rxFifoBuf, rxFifoBuf.elements, streamer, rxbuf
      ensures Valid() && Pending() == old(Pending()) && numReceived <= space
      ensures |got'| == |got| + numReceived && rxbuf[..at + numReceived] == old(rxbuf[..at]) + got'[|got|..] && got <= got'
      ensures if more then 0 < numReceived && |streamer.inbox| < |old(streamer.inbox)|
                           && Pulling(goal, got', State(), space - numReceived)
              else goal == (got', State())
    {
      ghost var before := State();
      PullStep(goal, got, before, space);
      hide Next, Pull, State, Pending, Pulling;
      var ok;
      ok, numReceived := ReceiveNext(rxbuf, at, space);
      got' := if ok then got + Next(before, space).0 else got;
      assert got'[|got|..] == if ok then Next(before, space).0 else [];
      if !ok {
        numReceived := 0;
      }
      more := ok && numReceived >= 1;
    }

    /** The loop of streamReceiveTimeout. */
    method ReceiveFrames(rxbuf: array<byte>, at: nat, space: nat) returns (n: nat)
      requires Valid() && at + space <= rxbuf.Length
      requires rxbuf != rxFifoBuf.elements && rxbuf != txFifoBuf.elements
      modifies this, rxFifoBuf, rxFifoBuf.elements, streamer, rxbuf
      ensures Valid() && Pending() == old(Pending())
      ensures State() == Pull(old(State()), space).1
      ensures n == |Pull(old(State()), space).0|
      ensures rxbuf[..at + n] == old(rxbuf[..at]) + Pull(old(State()), space).0
    {
      hide Next, Pull, State, Pending, Pulling;
      ghost var goal, got, start: seq<byte> := Pull(State(), space), [], rxbuf[..at];
      StartPulling(State(), space);
      n := 0;
      var more := true;
      while more && n < space
        invariant n == |got| <= space && Valid() && Pending() == old(Pending())
        invariant rxbuf[..at + n] == start + got
        invariant if more then Pulling(goal, got, State(), space - n) else goal == (got, State())
        decreases more, |streamer.inbox|
      {
        ghost var got0 := got;
        var numReceived;
        more, numReceived, got := ReceiveRound(rxbuf, at + n, space - n, goal, got);
        assert start + got0 + got[|got0|..] == start + got;
        n := n + numReceived;
      }
      if more {
        PullStep(goal, got, State(), 0);
      }
    }

    /** Fills the start of `rxbuf`; np is how many bytes were obtained, at most `num`. */
    method StreamReceiveTimeout(rxbuf: array<byte>, num: nat) returns (np: nat)
      requires Valid() && num <= rxbuf.Length
      requires rxbuf != rxFifoBuf.elements && rxbuf != txFifoBuf.elements
      modifies this, rxFifoBuf, rxFifoBuf.elements, streamer, rxbuf
      ensures Valid() && Pending() == old(Pending())
      ensures State() == Read(old(State()), num).1
      ensures np == |Read(old(State()), num).0|
      ensures rxbuf[..np] == Read(old(State()), num).0
    {
      hide Pull;
      var i := GetDataFromFifo(rxbuf, num);
      var n := ReceiveFrames(rxbuf, i, num - i);
      np := i + n;
    }
  }
}
