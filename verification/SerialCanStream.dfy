/** Reading is invisible: whatever the sizes of the reads, the bytes come out of one stream. */
module SerialCanStream {
  import opened Util
  import opened IsoTp
  import opened SerialCan
  import opened FifoBuffers

  /** Everything the reader of this link has still to get. */
  ghost function Stream(l: Link): seq<byte>
    requires Sound(l)
  {
    l.rxFifo + Delivered(l.reassembly, l.inbox)
  }

  /** Every frame continues what came before and brings at least one byte. */
  ghost predicate Productive(r: Reassembly, frames: seq<CanFrame>)
    requires AllReadable(frames)
    decreases |frames|
  {
    frames == [] ||
    match Decode(r, frames[0])
    case Ignored => false
    case Data(payload, next) => payload != [] && Productive(next, frames[1..])
  }

  /** One frame, taken by a reader with room and no leftovers. */
  lemma {:induction false} NextYields(l: Link, space: nat)
    requires Sound(l) && l.inbox != [] && l.rxFifo == [] && 0 < space
    ensures var (bytes, l1) := Next(l, space);
            l1.inbox == l.inbox[1..] &&
            match Decode(l.reassembly, l.inbox[0])
            case Ignored => bytes == [] && l1 == l.(inbox := l.inbox[1..])
            case Data(payload, next) =>
              && payload == bytes + l1.rxFifo && |payload| <= 7
              && |bytes| == Min(space, |payload|)
              && l1.reassembly == next
              && l1.sent == l.sent + if IsFirst(l.inbox[0]) then [FLOW_CONTROL_OK] else []
  {
    hide Encode;
    var d := Decode(l.reassembly, l.inbox[0]);
    if d.Data? {
      var n := Min(space, |d.payload|);
      assert d.payload[n..][..|d.payload| - n] == d.payload[n..];
      assert d.payload == d.payload[..n] + d.payload[n..];
    }
  }

  lemma {:induction false} NextConserves(l: Link, space: nat)
    requires Sound(l) && l.inbox != [] && l.rxFifo == [] && 0 < space
    ensures var (bytes, l1) := Next(l, space);
            && Stream(l) == bytes + Stream(l1)
            && (l1.rxFifo == [] || |bytes| == space)
            && |l1.rxFifo| <= 7
            && (Productive(l.reassembly, l.inbox) ==> bytes != [] && Productive(l1.reassembly, l1.inbox))
  {
    hide Next, Decode;
    NextYields(l, space);
    assert [l.inbox[0]] + l.inbox[1..] == l.inbox;
    DeliveredCons(l.reassembly, l.inbox[0], l.inbox[1..]);
  }

  lemma {:induction false} PullConserves(l: Link, space: nat)
    requires Sound(l) && (l.rxFifo == [] || space == 0)
    ensures var (bytes, l1) := Pull(l, space);
            && Stream(l) == bytes + Stream(l1)
            && (|l.rxFifo| <= 7 ==> |l1.rxFifo| <= 7)
            && (Productive(l.reassembly, l.inbox) ==>
                  && Productive(l1.reassembly, l1.inbox)
                  && (|bytes| == space || (l1.inbox == [] && l1.rxFifo == [])))
    decreases |l.inbox|
  {
    hide Next, Stream, Productive;
    if space != 0 && l.inbox != [] {
      NextConserves(l, space);
      var (bytes, l1) := Next(l, space);
      if |bytes| >= 1 {
        PullConserves(l1, space - |bytes|);
        var (more, l2) := Pull(l1, space - |bytes|);
        assert Pull(l, space) == (bytes + more, l2);
        assert bytes + (more + Stream(l2)) == (bytes + more) + Stream(l2);
      }
    }
  }

  lemma {:induction false} StreamSplit(l: Link, n: nat)
    requires Sound(l) && n <= |l.rxFifo|
    ensures Stream(l) == l.rxFifo[..n] + Stream(l.(rxFifo := l.rxFifo[n..]))
    ensures l.rxFifo == [] && l.inbox == [] ==> Stream(l) == []
  {
    assert l.rxFifo[..n] + l.rxFifo[n..] == l.rxFifo;
  }

  /** A read returns the next bytes of the stream and leaves the rest of it, for any queued
      frames; when every frame is productive it returns as many as were asked for, or all. */
  lemma {:induction false} ReadConserves(l: Link, num: nat)
    requires Sound(l)
    ensures var (bytes, l1) := Read(l, num);
            && Stream(l) == bytes + Stream(l1)
            && (|l.rxFifo| <= 7 ==> |l1.rxFifo| <= 7)
            && (Productive(l.reassembly, l.inbox) ==>
                  && Productive(l1.reassembly, l1.inbox)
                  && |bytes| == Min(num, |Stream(l)|))
  {
    hide Stream, Pull, Productive;
    var n := Min(num, |l.rxFifo|);
    var l0 := l.(rxFifo := l.rxFifo[n..]);
    StreamSplit(l, n);
    PullConserves(l0, num - n);
    var (more, l1) := Pull(l0, num - n);
    assert Read(l, num) == (l.rxFifo[..n] + more, l1);
    assert l.rxFifo[..n] + (more + Stream(l1)) == (l.rxFifo[..n] + more) + Stream(l1);
    if l1.inbox == [] && l1.rxFifo == [] {
      StreamSplit(l1, 0);
    }
  }

  // ---------- what a segmented message looks like to the reader ----------

  lemma {:induction false} ConsecutivesProductive(rest: seq<byte>, index: nat)
    ensures AllReadable(Consecutives(rest, index))
    ensures Productive(Reassembly(|rest|, index % 16), Consecutives(rest, index))
    decreases |rest|
  {
    if rest != [] {
      var n := Min(|rest|, 7);
      ConsecutivesProductive(rest[n..], index + 1);
      ConsecutiveDecodes(Reassembly(|rest|, index % 16), rest[..n], index);
      var f := Encode(ConsecutiveFrame(index % 16), rest[..n]);
      var tail := Consecutives(rest[n..], index + 1);
      assert ([f] + tail)[1..] == tail && Readable(f);
    }
  }

  lemma {:induction false} FirstProductive(r: Reassembly, f: CanFrame, message: seq<byte>)
    requires 7 < |message| && Readable(f)
    requires Decode(r, f) == Data(message[..6], Reassembly(|message| - 6, 1))
    ensures AllReadable([f] + Consecutives(message[6..], 1))
    ensures Productive(r, [f] + Consecutives(message[6..], 1))
  {
    ConsecutivesProductive(message[6..], 1);
    assert ([f] + Consecutives(message[6..], 1))[1..] == Consecutives(message[6..], 1);
  }

  lemma {:induction false} SegmentProductive(r: Reassembly, message: seq<byte>)
    requires |message| < 4096
    ensures AllReadable(Segment(message)) && Productive(r, Segment(message))
  {
    if 0 < |message| <= 7 {
      SingleDecodes(r, message);
    } else if 7 < |message| {
      FirstDecodes(r, message);
      FirstProductive(r, Encode(FirstFrame(|message|), message), message);
    }
  }

  lemma {:induction false} ProductiveConcat(r: Reassembly, a: seq<CanFrame>, b: seq<CanFrame>)
    requires AllReadable(a) && AllReadable(b) && Productive(r, a) && Productive(After(r, a), b)
    ensures AllReadable(a + b) && Productive(r, a + b)
    decreases |a|
  {
    if a == [] {
      assert a + b == b;
    } else {
      hide Decode, Readable;
      ProductiveConcat(Decode(r, a[0]).next, a[1..], b);
      assert (a + b)[1..] == a[1..] + b && (a + b)[0] == a[0];
    }
  }

  // ---------- data that arrives while a sender waits ----------

  function Answer(f: CanFrame): seq<CanFrame> {
    if IsFirst(f) then [FLOW_CONTROL_OK] else []
  }

  /** One "continue" for every FirstFrame among these. */
  function Answers(frames: seq<CanFrame>): seq<CanFrame> {
    if frames == [] then [] else Answer(frames[0]) + Answers(frames[1..])
  }

  /** The first `capacity` bytes of what was queued and what came in. */
  function Kept(fifo: seq<byte>, bytes: seq<byte>): seq<byte> {
    (fifo + bytes)[..Min(|fifo + bytes|, CAN_FIFO_BUF_SIZE)]
  }

  /** Where the link stands after its first `n` frames went to the FIFO. */
  ghost function AfterTaking(l: Link, n: nat): Link
    requires Sound(l) && n <= |l.inbox|
  {
    Link(After(l.reassembly, l.inbox[..n]), Kept(l.rxFifo, Delivered(l.reassembly, l.inbox[..n])), l.inbox[n..],
         l.sent + Answers(l.inbox[..n]))
  }

  lemma {:induction false} KeptTwice(fifo: seq<byte>, a: seq<byte>, b: seq<byte>)
    ensures Kept(Kept(fifo, a), b) == Kept(fifo, a + b)
  {
    Associate(fifo, a, b);
  }

  lemma {:induction false} KeptNothing(fifo: seq<byte>)
    requires |fifo| <= CAN_FIFO_BUF_SIZE
    ensures Kept(fifo, []) == fifo
  {
  }

  lemma {:induction false} StoredIsKept(fifo: seq<byte>, bytes: seq<byte>)
    requires |fifo| <= CAN_FIFO_BUF_SIZE
    ensures Stored(fifo, bytes, CAN_FIFO_BUF_SIZE) == Kept(fifo, bytes)
  {
  }

  lemma {:induction false} ReceiveWithoutRoom(l: Link, f: CanFrame)
    requires Sound(l) && Readable(f)
    ensures match Decode(l.reassembly, f)
            case Ignored => Receive(l, f, 0) == ([], l)
            case Data(payload, next) =>
              Receive(l, f, 0) == ([], Link(next, Kept(l.rxFifo, payload), l.inbox, l.sent + Answer(f)))
  {
    hide Decode, Stored, Kept, Encode;
    match Decode(l.reassembly, f) {
      case Ignored =>
      case Data(payload, next) =>
        assert payload[0..] == payload && payload[..0] == [] && l.sent + [] == l.sent;
        StoredIsKept(l.rxFifo, payload);
    }
  }

  lemma {:induction false} OneDelivered(r: Reassembly, f: CanFrame)
    requires Readable(f)
    ensures AllReadable([f])
    ensures match Decode(r, f)
            case Ignored => Delivered(r, [f]) == [] && After(r, [f]) == r && !IsFirst(f)
            case Data(payload, next) => Delivered(r, [f]) == payload && After(r, [f]) == next
  {
    assert [f] + [] == [f];
    DeliveredCons(r, f, []);
  }

  /** A frame that meets a reader without room leaves its payload in the FIFO. */
  lemma {:induction false} ReceiveTakes(l: Link)
    requires Sound(l) && l.inbox != []
    ensures Receive(l.(inbox := l.inbox[1..]), l.inbox[0], 0) == ([], AfterTaking(l, 1))
  {
    var f := l.inbox[0];
    assert l.inbox[..1] == [f];
    OneDelivered(l.reassembly, f);
    AnswersStep([f]);
    ReceiveWithoutRoom(l.(inbox := l.inbox[1..]), f);
    hide Receive, Decode, Kept, Encode, Readable, Answers, Delivered, After;
    KeptNothing(l.rxFifo);
    assert l.sent + [] == l.sent;
  }

  lemma {:induction false} TakeMore(l: Link, n: nat)
    requires Sound(l) && n < |l.inbox|
    ensures Sound(AfterTaking(l, 1)) && AfterTaking(AfterTaking(l, 1), n) == AfterTaking(l, n + 1)
  {
    var a, b := l.inbox[..1], l.inbox[1..][..n];
    assert l.inbox[..n + 1] == a + b && l.inbox[1..][n..] == l.inbox[n + 1..];
    DeliveredConcat(l.reassembly, a, b);
    AnswersConcat(a, b);
    hide Delivered, After, Answers, Kept, Readable;
    KeptTwice(l.rxFifo, Delivered(l.reassembly, a), Delivered(After(l.reassembly, a), b));
    KeptFits(l.rxFifo, Delivered(l.reassembly, a));
    Associate(l.sent, Answers(a), Answers(b));
  }

  lemma {:induction false} KeptFits(fifo: seq<byte>, bytes: seq<byte>)
    ensures |Kept(fifo, bytes)| <= CAN_FIFO_BUF_SIZE
    ensures Kept(fifo, bytes) == fifo + bytes <==> |fifo| + |bytes| <= CAN_FIFO_BUF_SIZE
  {
  }

  lemma {:induction false} AnswersConcat(a: seq<CanFrame>, b: seq<CanFrame>)
    ensures Answers(a + b) == Answers(a) + Answers(b)
  {
    if a == [] {
      assert a + b == b;
    } else {
      AnswersStep(a);
      AnswersStep(a + b);
      hide *;
      AnswersConcat(a[1..], b);
      assert (a + b)[0] == a[0] && (a + b)[1..] == a[1..] + b;
      Associate(Answer(a[0]), Answers(a[1..]), Answers(b));
    }
  }

  lemma {:induction false} AnswersStep(frames: seq<CanFrame>)
    requires frames != []
    ensures Answers(frames) == Answer(frames[0]) + Answers(frames[1..])
    ensures |frames| == 1 ==> Answers(frames) == Answer(frames[0])
  {
  }

  /** How many frames a wait for permission takes: up to the first one, among `waits + 1`, whose low
      nibble is not "wait". */
  function Taken(inbox: seq<CanFrame>, waits: nat): (n: nat)
    ensures n <= |inbox|
  {
    if inbox == [] then 0
    else if inbox[0].data8[0] % 16 == 1 && 0 < waits then 1 + Taken(inbox[1..], waits - 1)
    else 1
  }

  /** The wait takes exactly those frames; their data is queued, their FirstFrames are answered, and
      everything else is as it was. */
  lemma {:induction false} AwaitTakes(l: Link, received: nat)
    requires Sound(l) && received <= 3
    ensures AwaitFlowControl(l, received).1 == AfterTaking(l, Taken(l.inbox, 3 - received))
    decreases |l.inbox|
  {
    AwaitStep(l, received);
    hide *;
    if l.inbox == [] {
      TakeNothing(l);
    } else {
      ReceiveTakes(l);
      if l.inbox[0].data8[0] % 16 == 1 && received < 3 {
        TakeMore(l, Taken(l.inbox[1..], 3 - received - 1));
        TakenInbox(l);
        AwaitTakes(AfterTaking(l, 1), received + 1);
      }
    }
  }

  lemma {:induction false} AwaitStep(l: Link, received: nat)
    requires Sound(l) && received <= 3
    ensures l.inbox == [] ==> AwaitFlowControl(l, received).1 == l && Taken(l.inbox, 3 - received) == 0
    ensures l.inbox != [] ==>
              var l1 := Receive(l.(inbox := l.inbox[1..]), l.inbox[0], 0).1;
              if l.inbox[0].data8[0] % 16 == 1 && received < 3
              then && AwaitFlowControl(l, received) == AwaitFlowControl(l1, received + 1)
                   && Taken(l.inbox, 3 - received) == 1 + Taken(l.inbox[1..], 3 - received - 1)
              else AwaitFlowControl(l, received).1 == l1 && Taken(l.inbox, 3 - received) == 1
  {
    hide Receive;
  }

  lemma {:induction false} TakenInbox(l: Link)
    requires Sound(l) && l.inbox != []
    ensures AfterTaking(l, 1).inbox == l.inbox[1..]
  {
  }

  lemma {:induction false} TakeNothing(l: Link)
    requires Sound(l)
    ensures AfterTaking(l, 0) == l
  {
    assert l.inbox[..0] == [] && l.inbox[0..] == l.inbox;
    KeptNothing(l.rxFifo);
    assert l.sent + [] == l.sent;
  }

  /** Taking frames loses nothing exactly when their data fits behind what is queued. */
  lemma {:induction false} TakingConserves(l: Link, n: nat)
    requires Sound(l) && n <= |l.inbox|
    ensures Sound(AfterTaking(l, n))
    ensures Stream(AfterTaking(l, n)) == Stream(l)
            <==> |l.rxFifo| + |Delivered(l.reassembly, l.inbox[..n])| <= CAN_FIFO_BUF_SIZE
  {
    var a, b := l.inbox[..n], l.inbox[n..];
    assert l.inbox == a + b;
    DeliveredConcat(l.reassembly, a, b);
    hide Delivered, After, Answers, Kept, Readable;
    var now, later := Delivered(l.reassembly, a), Delivered(After(l.reassembly, a), b);
    KeptFits(l.rxFifo, now);
    Associate(l.rxFifo, now, later);
    assert Stream(l) == l.rxFifo + now + later;
    if |l.rxFifo| + |now| > CAN_FIFO_BUF_SIZE {
      assert |Stream(AfterTaking(l, n))| < |Stream(l)|;
    }
  }

  /** What a send does to its own receiving side: a short message nothing at all; a long one queues the
      data of the frames it took while waiting, and answers their FirstFrames after its own FirstFrame. */
  lemma {:induction false} SendTakes(l: Link, message: seq<byte>)
    requires Sound(l)
    ensures var l1 := Send(l, message).1;
            var t := AfterTaking(l, if |message| <= 7 then 0 else Taken(l.inbox, 3));
            && l1.reassembly == t.reassembly && l1.rxFifo == t.rxFifo && l1.inbox == t.inbox
            && l1.sent == l.sent + SendFrames(message, Send(l, message).0 == |message|, Answers(l.inbox[..|l.inbox| - |l1.inbox|]))
  {
    if |message| <= 7 {
      TakeNothing(l);
      assert l.inbox[..0] == [];
      hide AfterTaking, Segment;
    } else {
      LongSend(l, message);
    }
  }

  lemma {:induction false} LongSend(l: Link, message: seq<byte>)
    requires Sound(l) && 7 < |message|
    ensures var l1 := Send(l, message).1;
            var t := AfterTaking(l, Taken(l.inbox, 3));
            && l1.reassembly == t.reassembly && l1.rxFifo == t.rxFifo && l1.inbox == t.inbox
            && l1.sent == l.sent + SendFrames(message, Send(l, message).0 == |message|, Answers(l.inbox[..|l.inbox| - |l1.inbox|]))
  {
    var first := [Encode(FirstFrame(|message|), message)];
    var l0 := l.(sent := l.sent + first);
    AwaitTakes(l0, 0);
    hide AwaitFlowControl, Encode, Consecutives, Taken, Answers, Kept, Delivered, After;
    var a := Answers(l.inbox[..Taken(l.inbox, 3)]);
    Associate(l.sent, first, a);
    if AwaitFlowControl(l0, 0).0 {
      Associate(l.sent, first + a, Consecutives(message[6..], 1));
    } else {
      assert first + a + [] == first + a;
    }
  }

  /** The frames of a message with the answers given in between. */
  function SendFrames(message: seq<byte>, sent: bool, answers: seq<CanFrame>): seq<CanFrame> {
    if |message| <= 7 then Segment(message)
    else [Segment(message)[0]] + answers + if sent then Segment(message)[1..] else []
  }

  /** A send never loses the peer's data while there is room for it. */
  lemma {:induction false} SendConserves(l: Link, message: seq<byte>)
    requires Sound(l)
    ensures Stream(Send(l, message).1) == Stream(l)
            <==> |message| <= 7 || |l.rxFifo| + |Delivered(l.reassembly, l.inbox[..Taken(l.inbox, 3)])| <= CAN_FIFO_BUF_SIZE
    ensures |Stream(l)| <= CAN_FIFO_BUF_SIZE ==> Stream(Send(l, message).1) == Stream(l)
  {
    DeliveredSplit(l, Taken(l.inbox, 3));
    SendTakes(l, message);
    hide Send, SendFrames, Taken, Answers, Delivered, After, Kept;
    TakingConserves(l, if |message| <= 7 then 0 else Taken(l.inbox, 3));
  }

  lemma {:induction false} DeliveredSplit(l: Link, n: nat)
    requires Sound(l) && n <= |l.inbox|
    ensures |l.rxFifo| + |Delivered(l.reassembly, l.inbox[..n])| <= |Stream(l)|
  {
    assert l.inbox == l.inbox[..n] + l.inbox[n..];
    DeliveredConcat(l.reassembly, l.inbox[..n], l.inbox[n..]);
    hide Delivered, After, Readable;
  }

  /** Nor does a whole add, whatever is refused on the way. */
  lemma {:induction false} AddConserves(l: Link, tx: seq<byte>, data: seq<byte>, size: nat)
    requires Sound(l) && |tx| <= size && 0 < size
    requires |Stream(l)| <= CAN_FIFO_BUF_SIZE
    ensures Stream(Add(l, tx, data, size).1) == Stream(l)
    decreases |data|, |tx|
  {
    AddStep(l, tx, data, 0, size);
    hide *;
    if size - |tx| <= |data| {
      var full := tx + data[0..size - |tx|];
      SendConserves(l, full);
      var (n, l1) := Send(l, full);
      if 1 <= n {
        AddConserves(l1, [], data[size - |tx|..], size);
      }
    }
  }

  // ---------- how many frames a read takes ----------

  /** What the first `n` frames deliver. */
  ghost function Got(l: Link, n: nat): seq<byte>
    requires Sound(l) && n <= |l.inbox|
  {
    Delivered(l.reassembly, l.inbox[..n])
  }

  lemma {:induction false} GotNothing(l: Link)
    requires Sound(l)
    ensures Got(l, 0) == []
  {
    assert l.inbox[..0] == [];
  }

  /** The first `n` frames were taken by a reader who got `bytes`; what it had no room for is queued. */
  ghost predicate TookFor(l: Link, bytes: seq<byte>, l1: Link, n: nat)
    requires Sound(l)
  {
    && n <= |l.inbox| && l1.inbox == l.inbox[n..]
    && l1.reassembly == After(l.reassembly, l.inbox[..n])
    && l1.sent == l.sent + Answers(l.inbox[..n])
    && bytes + l1.rxFifo == Got(l, n)
  }

  /** It stopped at frame `n` because it had enough, or there was no more, or that frame brought nothing;
      and not before. */
  ghost predicate StoppedAt(l: Link, space: nat, n: nat)
    requires Sound(l) && n <= |l.inbox|
  {
    && (space <= |Got(l, n)| || n == |l.inbox| || (n > 0 && |Got(l, n)| == |Got(l, n - 1)|))
    && forall i :: 0 <= i < n ==> |Got(l, i)| < space && (i > 0 ==> |Got(l, i - 1)| < |Got(l, i)|)
  }

  lemma {:induction false} GotStep(l: Link, l1: Link, n: nat)
    requires Sound(l) && Sound(l1) && l.inbox != [] && l1.inbox == l.inbox[1..] && n <= |l1.inbox|
    requires l1.reassembly == After(l.reassembly, l.inbox[..1])
    ensures Got(l, n + 1) == Got(l, 1) + Got(l1, n)
    ensures After(l.reassembly, l.inbox[..n + 1]) == After(l1.reassembly, l1.inbox[..n])
    ensures Answers(l.inbox[..n + 1]) == Answers(l.inbox[..1]) + Answers(l1.inbox[..n])
    ensures l1.inbox[n..] == l.inbox[n + 1..]
  {
    var a, b := l.inbox[..1], l1.inbox[..n];
    assert l.inbox[..n + 1] == a + b;
    DeliveredConcat(l.reassembly, a, b);
    AnswersConcat(a, b);
    hide Delivered, After, Answers;
  }

  lemma {:induction false} NextTakes(l: Link, space: nat)
    requires Sound(l) && l.rxFifo == [] && l.inbox != [] && 0 < space
    ensures var (bytes, l1) := Next(l, space);
            && TookFor(l, bytes, l1, 1) && |bytes| == Min(space, |Got(l, 1)|)
            && l1.inbox == l.inbox[1..] && (|bytes| < space ==> l1.rxFifo == [])
  {
    var f := l.inbox[0];
    assert l.inbox[..1] == [f];
    NextYields(l, space);
    OneDelivered(l.reassembly, f);
    AnswersStep([f]);
    hide Next, Decode, Delivered, After, Answers;
    assert l.sent + [] == l.sent;
    if Decode(l.reassembly, f).Ignored? {
      assert [] + l.rxFifo == [];
    }
  }

  lemma {:induction false} StopsLater(l: Link, l1: Link, space: nat, m: nat)
    requires Sound(l) && Sound(l1) && l.inbox != [] && l1.inbox == l.inbox[1..] && m <= |l1.inbox|
    requires l1.reassembly == After(l.reassembly, l.inbox[..1])
    requires 0 < |Got(l, 1)| <= space && StoppedAt(l1, space - |Got(l, 1)|, m)
    ensures StoppedAt(l, space, m + 1)
  {
    GotNothing(l);
    GotNothing(l1);
    GotStep(l, l1, m);
    if m > 0 { GotStep(l, l1, m - 1); }
    forall i | 0 <= i < m + 1 ensures |Got(l, i)| < space && (i > 0 ==> |Got(l, i - 1)| < |Got(l, i)|) {
      GoesOnAt(l, l1, space, m, i);
    }
    hide Got;
  }

  lemma {:induction false} GoesOnAt(l: Link, l1: Link, space: nat, m: nat, i: nat)
    requires Sound(l) && Sound(l1) && l.inbox != [] && l1.inbox == l.inbox[1..] && m <= |l1.inbox|
    requires l1.reassembly == After(l.reassembly, l.inbox[..1])
    requires 0 < |Got(l, 1)| <= space && StoppedAt(l1, space - |Got(l, 1)|, m) && i <= m
    ensures |Got(l, i)| < space && (i > 0 ==> |Got(l, i - 1)| < |Got(l, i)|)
  {
    GotNothing(l);
    GotNothing(l1);
    hide Got;
    if i > 0 {
      GotStep(l, l1, i - 1);
      assert |Got(l1, i - 1)| <= space - |Got(l, 1)|;
      if i > 1 { GotStep(l, l1, i - 2); }
    }
  }

  lemma {:induction false} TakesLater(l: Link, bytes: seq<byte>, l1: Link, more: seq<byte>, l2: Link, m: nat)
    requires Sound(l) && Sound(l1) && l.inbox != []
    requires TookFor(l, bytes, l1, 1) && l1.rxFifo == [] && TookFor(l1, more, l2, m)
    ensures TookFor(l, bytes + more, l2, m + 1)
  {
    GotStep(l, l1, m);
    hide Got, Answers, After;
    assert bytes + [] == bytes;
    Associate(bytes, more, l2.rxFifo);
    Associate(l.sent, Answers(l.inbox[..1]), Answers(l1.inbox[..m]));
  }

  /** The loop of a read takes exactly the frames it needs: it ends when it has enough, when none is left,
      or with the first frame that brings nothing, and never earlier. */
  lemma {:induction false} PullTakes(l: Link, space: nat) returns (n: nat)
    requires Sound(l) && (l.rxFifo == [] || space == 0)
    ensures space == 0 ==> n == 0 && Pull(l, space) == ([], l)
    ensures space > 0 ==> TookFor(l, Pull(l, space).0, Pull(l, space).1, n)
    ensures n <= |l.inbox| && StoppedAt(l, space, n)
    ensures space > 0 ==> |Pull(l, space).0| == Min(space, |Got(l, n)|)
    decreases |l.inbox|
  {
    hide Next, Got, StoppedAt, TookFor;
    if space == 0 || l.inbox == [] {
      n := 0;
      NothingTaken(l, space);
    } else {
      NextTakes(l, space);
      var (bytes, l1) := Next(l, space);
      n := 1;
      if |bytes| < 1 || |bytes| == space {
        StopsHere(l, space);
        NothingMore(l1, space - |bytes|, bytes);
      } else {
        Advanced(l, bytes, l1);
        var m := PullTakes(l1, space - |bytes|);
        var (more, l2) := Pull(l1, space - |bytes|);
        StopsLater(l, l1, space, m);
        TakesLater(l, bytes, l1, more, l2, m);
        GotStep(l, l1, m);
        n := m + 1;
      }
    }
  }

  lemma {:induction false} Advanced(l: Link, bytes: seq<byte>, l1: Link)
    requires Sound(l) && TookFor(l, bytes, l1, 1)
    ensures l1.inbox == l.inbox[1..] && l1.reassembly == After(l.reassembly, l.inbox[..1])
  {
  }

  lemma {:induction false} NothingMore(l: Link, space: nat, bytes: seq<byte>)
    requires Sound(l)
    ensures space == 0 ==> Pull(l, space) == ([], l)
    ensures bytes + [] == bytes
  {
  }

  lemma {:induction false} NothingTaken(l: Link, space: nat)
    requires Sound(l) && (space == 0 || (l.inbox == [] && l.rxFifo == []))
    ensures Pull(l, space) == ([], l) && StoppedAt(l, space, 0) && Got(l, 0) == []
    ensures l.rxFifo == [] ==> TookFor(l, [], l, 0)
  {
    GotNothing(l);
    assert l.inbox[..0] == [] && l.inbox[0..] == l.inbox && l.sent + [] == l.sent;
  }

  lemma {:induction false} StopsHere(l: Link, space: nat)
    requires Sound(l) && l.inbox != [] && 0 < space && (|Got(l, 1)| == 0 || space <= |Got(l, 1)|)
    ensures StoppedAt(l, space, 1)
  {
    GotNothing(l);
    hide Got;
  }
}
