/** Two peers, two threads: one adds to and flushes its stream, the other reads, and the CAN bus
    carries frames one way and flow control the other. Steps are single frames, so every
    interleaving of the two threads is a run. */
module SerialCanSystem {
  import opened Util
  import opened IsoTp
  import opened SerialCan
  import opened SerialCanStream

  const CAN_FIFO_FRAME_SIZE := 8

  /** The bus delivers into the reader's listener queue; frames beyond its size would be lost, so a frame
      is sent only while there is room. */
  datatype System = System(
    size: nat,                      // capacity of the transmit FIFO
    tx: seq<byte>,                  // its contents
    offered: Option<seq<byte>>,     // what a streamAddToTxTimeout in progress has still to place
    unsent: seq<CanFrame>,          // what a sendDataTimeout in progress has still to transmit
    awaiting: bool,                 // it waits for flow control
    receiver: Link,                 // the peer; its inbox is the bus, its sent frames are the answers
    taken: nat,                     // how many answers the sender has taken
    added: seq<byte>,               // history: bytes handed to the sender
    returned: seq<byte>)            // history: bytes the reader got

  datatype Step =
    | Offer(data: seq<byte>)
    | Fill
    | Park
    | Flush
    | Transmit
    | TakeFlowControl
    | ReadLeftover(n: nat)
    | ReadFrame(space: nat)

  predicate Idle(s: System) {
    s.unsent == [] && !s.awaiting
  }

  ghost predicate Enabled(s: System, step: Step)
    requires Sound(s.receiver)
  {
    match step
    case Offer(_) => Idle(s) && s.offered == None
    case Fill => Idle(s) && s.offered.Some? && s.size - |s.tx| <= |s.offered.value|
    case Park => Idle(s) && s.offered.Some? && |s.offered.value| < s.size - |s.tx|
    case Flush => Idle(s) && s.offered == None
    case Transmit =>
      s.unsent != [] && !s.awaiting && Readable(s.unsent[0]) && |s.receiver.inbox| < CAN_FIFO_FRAME_SIZE
    case TakeFlowControl => s.awaiting && s.taken < |s.receiver.sent|
    case ReadLeftover(n) => n <= |s.receiver.rxFifo|
    case ReadFrame(space) => 0 < space && s.receiver.rxFifo == [] && s.receiver.inbox != []
  }

  /** A status other than "continue" or "wait" makes the sender give the message up. */
  ghost function Apply(s: System, step: Step): System
    requires Sound(s.receiver) && Enabled(s, step) && |s.tx| <= s.size
  {
    match step
    case Offer(data) => s.(offered := Some(data), added := s.added + data)
    case Fill =>
      var k := s.size - |s.tx|;
      s.(unsent := Segment(s.tx + s.offered.value[..k]), offered := Some(s.offered.value[k..]), tx := [])
    case Park => s.(tx := s.tx + s.offered.value, offered := None)
    case Flush => s.(unsent := Segment(s.tx), tx := [])
    case Transmit =>
      s.(receiver := s.receiver.(inbox := s.receiver.inbox + [s.unsent[0]]), unsent := s.unsent[1..],
         awaiting := IsFirst(s.unsent[0]))
    case TakeFlowControl =>
      var status := s.receiver.sent[s.taken].data8[0] % 16;
      if status == FLOW_STATUS_OK then s.(awaiting := false, taken := s.taken + 1)
      else if status == FLOW_STATUS_WAIT_MORE then s.(taken := s.taken + 1)
      else s.(awaiting := false, unsent := [], taken := s.taken + 1)
    case ReadLeftover(n) =>
      s.(receiver := s.receiver.(rxFifo := s.receiver.rxFifo[n..]), returned := s.returned + s.receiver.rxFifo[..n])
    case ReadFrame(space) =>
      var (bytes, l) := Next(s.receiver, space);
      s.(receiver := l, returned := s.returned + bytes)
  }

  ghost predicate Init(s: System) {
    && 0 < s.size < 4096
    && s == System(s.size, [], None, [], false, Link(Reassembly(0, 0), [], [], []), 0, [], [])
  }

  function Firsts(frames: seq<CanFrame>): nat {
    if frames == [] then 0 else (if IsFirst(frames[0]) then 1 else 0) + Firsts(frames[1..])
  }

  function Wire(s: System): seq<CanFrame> {
    s.receiver.inbox + s.unsent
  }

  function Waiting(s: System): seq<byte> {
    s.tx + if s.offered.Some? then s.offered.value else []
  }

  ghost predicate Shape(s: System) {
    && 0 < s.size < 4096 && |s.tx| < s.size
    && Sound(s.receiver) && |s.receiver.rxFifo| <= 7
    && AllReadable(Wire(s)) && Productive(s.receiver.reassembly, Wire(s))
  }

  /** Every FirstFrame is answered once, with "continue". */
  ghost predicate Handshake(s: System) {
    && s.taken <= |s.receiver.sent|
    && (forall i :: 0 <= i < |s.receiver.sent| ==> s.receiver.sent[i] == FLOW_CONTROL_OK)
    && Firsts(s.receiver.inbox) + (|s.receiver.sent| - s.taken) == (if s.awaiting then 1 else 0)
    && (s.unsent != [] ==> Firsts(s.unsent[1..]) == 0)
    && (s.awaiting ==> Firsts(s.unsent) == 0)
  }

  /** No byte is lost, repeated or out of order, wherever it is. */
  ghost predicate Conserved(s: System)
    requires Shape(s)
  {
    s.returned + s.receiver.rxFifo + Delivered(s.receiver.reassembly, Wire(s)) + Waiting(s) == s.added
  }

  ghost predicate Inv(s: System) {
    Shape(s) && Handshake(s) && Conserved(s)
  }

  // ---------- frames ----------

  lemma {:induction false} FirstsConcat(a: seq<CanFrame>, b: seq<CanFrame>)
    ensures Firsts(a + b) == Firsts(a) + Firsts(b)
  {
    if a == [] {
      assert a + b == b;
    } else {
      FirstsConcat(a[1..], b);
      assert (a + b)[1..] == a[1..] + b;
    }
  }

  lemma {:induction false} ConsecutivesNoFirst(rest: seq<byte>, index: nat)
    ensures Firsts(Consecutives(rest, index)) == 0
    decreases |rest|
  {
    if rest != [] {
      var n := Min(|rest|, 7);
      ConsecutivesNoFirst(rest[n..], index + 1);
      EncodeLayout(ConsecutiveFrame(index % 16), rest[..n]);
      var f, tail := Encode(ConsecutiveFrame(index % 16), rest[..n]), Consecutives(rest[n..], index + 1);
      assert ([f] + tail)[1..] == tail;
    }
  }

  lemma {:induction false} SegmentFirsts(message: seq<byte>)
    ensures Segment(message) != [] ==> Firsts(Segment(message)[1..]) == 0
  {
    if 7 < |message| {
      ConsecutivesNoFirst(message[6..], 1);
      assert Segment(message)[1..] == Consecutives(message[6..], 1);
    }
  }

  // ---------- the steps keep the invariant ----------

  lemma {:induction false} InitInv(s: System)
    requires Init(s)
    ensures Inv(s)
  {
    assert Wire(s) == [];
  }

  lemma {:induction false} WireGrows(r: Reassembly, wire: seq<CanFrame>, block: seq<byte>)
    requires |block| < 4096 && AllReadable(wire) && Productive(r, wire)
    ensures var w := wire + Segment(block);
            && AllReadable(w) && Productive(r, w)
            && Delivered(r, w) == Delivered(r, wire) + block
            && (Segment(block) != [] ==> Firsts(Segment(block)[1..]) == 0)
  {
    hide *;
    SegmentDelivers(After(r, wire), block);
    SegmentProductive(After(r, wire), block);
    SegmentFirsts(block);
    DeliveredConcat(r, wire, Segment(block));
    ProductiveConcat(r, wire, Segment(block));
  }

  /** Starting a message: Fill and Flush both hand one block to sendDataTimeout. */
  lemma {:induction false} BlockStarts(s: System, block: seq<byte>)
    requires Inv(s) && Idle(s) && |block| < 4096
    ensures var w := Wire(s) + Segment(block);
            && AllReadable(w) && Productive(s.receiver.reassembly, w)
            && Delivered(s.receiver.reassembly, w) == Delivered(s.receiver.reassembly, Wire(s)) + block
            && s.receiver.inbox + Segment(block) == w
            && (Segment(block) != [] ==> Firsts(Segment(block)[1..]) == 0)
  {
    WireGrows(s.receiver.reassembly, Wire(s), block);
    hide Segment, Delivered, Productive, AllReadable, Firsts, Handshake, Conserved;
    assert Wire(s) == s.receiver.inbox;
  }

  lemma {:induction false} FillInv(s: System)
    requires Inv(s) && Enabled(s, Fill)
    ensures Inv(Apply(s, Fill))
  {
    hide Segment, Delivered, Productive;
    var k := s.size - |s.tx|;
    var block, rest := s.tx + s.offered.value[..k], s.offered.value[k..];
    BlockStarts(s, block);
    assert s.offered.value == s.offered.value[..k] + rest;
    var s' := Apply(s, Fill);
    assert Wire(s') == Wire(s) + Segment(block);
    calc {
      s'.returned + s'.receiver.rxFifo + Delivered(s.receiver.reassembly, Wire(s')) + Waiting(s');
      s.returned + s.receiver.rxFifo + (Delivered(s.receiver.reassembly, Wire(s)) + block) + rest;
      s.returned + s.receiver.rxFifo + Delivered(s.receiver.reassembly, Wire(s)) + Waiting(s);
    }
  }

  lemma {:induction false} FlushInv(s: System)
    requires Inv(s) && Enabled(s, Flush)
    ensures Inv(Apply(s, Flush))
  {
    hide Segment, Delivered, Productive;
    BlockStarts(s, s.tx);
    var s' := Apply(s, Flush);
    assert Wire(s') == Wire(s) + Segment(s.tx);
  }

  lemma {:induction false} TransmitInv(s: System)
    requires Inv(s) && Enabled(s, Transmit)
    ensures Inv(Apply(s, Transmit))
  {
    hide Delivered, Productive;
    var f := s.unsent[0];
    var s' := Apply(s, Transmit);
    assert s.unsent == [f] + s.unsent[1..];
    assert Wire(s') == Wire(s);
    FirstsConcat(s.receiver.inbox, [f]);
    assert [f][1..] == [];
  }

  lemma {:induction false} TakeFlowControlInv(s: System)
    requires Inv(s) && Enabled(s, TakeFlowControl)
    ensures Apply(s, TakeFlowControl) == s.(awaiting := false, taken := s.taken + 1)
    ensures Inv(Apply(s, TakeFlowControl))
  {
    hide Delivered, Productive;
    EncodeLayout(CONTINUE_TO_SEND, []);
    assert Wire(Apply(s, TakeFlowControl)) == Wire(s);
  }

  /** What taking one frame off the wire does for the reader. */
  lemma {:induction false} NextOnWire(l: Link, space: nat, behind: seq<CanFrame>)
    requires Sound(l) && l.rxFifo == [] && l.inbox != [] && 0 < space
    requires AllReadable(l.inbox + behind) && Productive(l.reassembly, l.inbox + behind)
    ensures var (bytes, l1) := Next(l, space);
            && bytes != [] && |l1.rxFifo| <= 7
            && AllReadable(l1.inbox + behind) && Productive(l1.reassembly, l1.inbox + behind)
            && Delivered(l.reassembly, l.inbox + behind)
               == bytes + l1.rxFifo + Delivered(l1.reassembly, l1.inbox + behind)
            && l1.sent == l.sent + if IsFirst(l.inbox[0]) then [FLOW_CONTROL_OK] else []
  {
    hide Next, Decode;
    NextYields(l, space);
    var f, wire := l.inbox[0], l.inbox[1..] + behind;
    assert (l.inbox + behind)[1..] == wire && [f] + wire == l.inbox + behind;
    assert (l.inbox + behind)[0] == f;
    DeliveredCons(l.reassembly, f, wire);
  }

  lemma {:induction false} ReadFrameInv(s: System, space: nat)
    requires Inv(s) && Enabled(s, ReadFrame(space))
    ensures Inv(Apply(s, ReadFrame(space)))
  {
    hide Delivered, Productive, Next;
    NextOnWire(s.receiver, space, s.unsent);
    var (bytes, l) := Next(s.receiver, space);
    var s' := Apply(s, ReadFrame(space));
    var d := Delivered(l.reassembly, Wire(s'));
    assert s.returned + s.receiver.rxFifo + (bytes + l.rxFifo + d) == s'.returned + l.rxFifo + d;
    assert s.receiver.inbox[0] == Wire(s)[0];
  }

  /** Steps that only move bytes at either end. */
  lemma {:induction false} LocalStepInv(s: System, step: Step)
    requires Inv(s) && Enabled(s, step) && (step.Offer? || step.Park? || step.ReadLeftover?)
    ensures Inv(Apply(s, step))
  {
    hide Delivered, Productive;
    var s' := Apply(s, step);
    assert Wire(s') == Wire(s);
    if step.ReadLeftover? {
      assert s.receiver.rxFifo[..step.n] + s.receiver.rxFifo[step.n..] == s.receiver.rxFifo;
      assert s'.returned + s'.receiver.rxFifo == s.returned + s.receiver.rxFifo;
    }
  }

  /** Every step of either thread keeps every byte accounted for. */
  lemma {:induction false} StepInv(s: System, step: Step)
    requires Inv(s) && Enabled(s, step)
    ensures Inv(Apply(s, step))
  {
    hide Inv, Apply;
    match step
    case Offer(_) => LocalStepInv(s, step);
    case Fill => FillInv(s);
    case Park => LocalStepInv(s, step);
    case Flush => FlushInv(s);
    case Transmit => TransmitInv(s);
    case TakeFlowControl => TakeFlowControlInv(s);
    case ReadLeftover(_) => LocalStepInv(s, step);
    case ReadFrame(space) => ReadFrameInv(s, space);
  }

  // ---------- whole runs ----------

  ghost predicate IsRun(states: seq<System>, steps: seq<Step>) {
    && |states| == |steps| + 1
    && Init(states[0])
    && forall i :: 0 <= i < |steps| ==>
         && Sound(states[i].receiver) && |states[i].tx| <= states[i].size
         && Enabled(states[i], steps[i]) && states[i + 1] == Apply(states[i], steps[i])
  }

  lemma {:induction false} RunInv(states: seq<System>, steps: seq<Step>, n: nat)
    requires IsRun(states, steps) && n < |states|
    ensures Inv(states[n])
  {
    if n == 0 {
      InitInv(states[0]);
    } else {
      RunInv(states, steps, n - 1);
      StepInv(states[n - 1], steps[n - 1]);
    }
  }

  /** Nothing is on its way any more. */
  predicate Drained(s: System) {
    s.tx == [] && s.offered == None && s.unsent == [] && s.receiver.inbox == [] && s.receiver.rxFifo == []
  }

  /** Whatever was added, flushed and read, in whatever order and sizes: the reader has a prefix of
      the bytes added, and all of them once nothing is on its way. */
  lemma {:induction false} StreamTransparent(states: seq<System>, steps: seq<Step>, n: nat)
    requires IsRun(states, steps) && n < |states|
    ensures states[n].returned <= states[n].added
    ensures Drained(states[n]) ==> states[n].returned == states[n].added
  {
    RunInv(states, steps, n);
  }

  /** A sender that waits for flow control will get it: the answer is there, or the unanswered
      FirstFrame is still queued at the reader, whose next read returns at least one byte. */
  lemma {:induction false} NoDeadlock(states: seq<System>, steps: seq<Step>, n: nat)
    requires IsRun(states, steps) && n < |states| && states[n].awaiting
    ensures Shape(states[n])
    ensures var s := states[n];
            || (Enabled(s, TakeFlowControl) && Apply(s, TakeFlowControl).unsent == s.unsent)
            || (s.receiver.inbox != [] && Firsts(s.receiver.inbox) == 1
                && (s.receiver.rxFifo == [] ==> Next(s.receiver, 1).0 != []))
  {
    RunInv(states, steps, n);
    var s := states[n];
    if s.taken < |s.receiver.sent| {
      TakeFlowControlInv(s);
    } else if s.receiver.rxFifo == [] {
      NextOnWire(s.receiver, 1, s.unsent);
    }
  }

  // ---------- the steps are those of the methods ----------

  lemma {:induction false} AwaitAnswered(l: Link)
    requires Sound(l) && l.inbox != [] && l.inbox[0] == FLOW_CONTROL_OK
    ensures AwaitFlowControl(l, 0) == (true, l.(inbox := l.inbox[1..]))
  {
    EncodeLayout(CONTINUE_TO_SEND, []);
    assert FrameType(l.inbox[0]) == FRAME_FLOW_CONTROL && l.inbox[0].data8[0] % 16 == 0;
  }

  /** With the peer's answer at hand, sendDataTimeout reports the whole message as sent and puts
      exactly its segmentation on the bus, disturbing nothing else. */
  lemma {:induction false} SendWithFlowControl(l: Link, message: seq<byte>)
    requires Sound(l) && (7 < |message| ==> l.inbox != [] && l.inbox[0] == FLOW_CONTROL_OK)
    ensures Send(l, message).0 == |message|
    ensures Send(l, message).1
         == l.(sent := l.sent + Segment(message), inbox := if |message| <= 7 then l.inbox else l.inbox[1..])
  {
    hide AwaitFlowControl, Encode, Consecutives;
    if 7 < |message| {
      var first := Encode(FirstFrame(|message|), message);
      AwaitAnswered(l.(sent := l.sent + [first]));
      assert l.sent + [first] + Consecutives(message[6..], 1) == l.sent + Segment(message);
    }
  }

  /** Without an answer a long message is abandoned after its FirstFrame. */
  lemma {:induction false} SendWithoutFlowControl(l: Link, message: seq<byte>)
    requires Sound(l) && l.inbox == [] && 7 < |message|
    ensures Send(l, message) == (0, l.(sent := l.sent + [Segment(message)[0]]))
  {
    hide Encode, Consecutives;
  }

  function FlowStatus(f: CanFrame): nat {
    f.data8[0] % 16
  }

  /** At most `waits` frames that say "wait", then one that says "continue". What kind of frame it is
      nobody looks at. */
  ghost predicate Permitted(inbox: seq<CanFrame>, waits: nat) {
    exists k :: 0 <= k <= waits && k < |inbox| && FlowStatus(inbox[k]) == FLOW_STATUS_OK
                && forall j :: 0 <= j < k ==> FlowStatus(inbox[j]) == FLOW_STATUS_WAIT_MORE
  }

  lemma {:induction false} PermittedStep(f: CanFrame, rest: seq<CanFrame>, waits: nat)
    ensures Permitted([f] + rest, waits) <==>
            || FlowStatus(f) == FLOW_STATUS_OK
            || (FlowStatus(f) == FLOW_STATUS_WAIT_MORE && 0 < waits && Permitted(rest, waits - 1))
  {
    var all := [f] + rest;
    if k :| 0 <= k <= waits && k < |all| && FlowStatus(all[k]) == FLOW_STATUS_OK
            && forall j :: 0 <= j < k ==> FlowStatus(all[j]) == FLOW_STATUS_WAIT_MORE {
      if k > 0 {
        assert FlowStatus(all[0]) == FLOW_STATUS_WAIT_MORE && FlowStatus(rest[k - 1]) == FLOW_STATUS_OK;
        forall j | 0 <= j < k - 1 ensures FlowStatus(rest[j]) == FLOW_STATUS_WAIT_MORE {
          assert FlowStatus(all[j + 1]) == FLOW_STATUS_WAIT_MORE;
        }
      }
    }
    if FlowStatus(f) == FLOW_STATUS_OK {
      assert FlowStatus(all[0]) == FLOW_STATUS_OK;
    }
    if FlowStatus(f) == FLOW_STATUS_WAIT_MORE && 0 < waits && Permitted(rest, waits - 1) {
      var k :| 0 <= k <= waits - 1 && k < |rest| && FlowStatus(rest[k]) == FLOW_STATUS_OK
               && forall j :: 0 <= j < k ==> FlowStatus(rest[j]) == FLOW_STATUS_WAIT_MORE;
      assert FlowStatus(all[k + 1]) == FLOW_STATUS_OK;
      forall j | 0 <= j < k + 1 ensures FlowStatus(all[j]) == FLOW_STATUS_WAIT_MORE {
        assert j > 0 ==> all[j] == rest[j - 1];
      }
    }
  }

  lemma {:induction false} AwaitIff(l: Link, received: nat)
    requires Sound(l) && received <= 3
    ensures AwaitFlowControl(l, received).0 <==> Permitted(l.inbox, 3 - received)
    decreases |l.inbox|
  {
    hide Receive, Permitted;
    if l.inbox == [] {
      NothingPermitted(3 - received);
    } else {
      var f, rest := l.inbox[0], l.inbox[1..];
      assert l.inbox == [f] + rest;
      PermittedStep(f, rest, 3 - received);
      if FlowStatus(f) == FLOW_STATUS_WAIT_MORE && received < 3 {
        AwaitIff(Receive(l.(inbox := rest), f, 0).1, received + 1);
      }
    }
  }

  lemma {:induction false} NothingPermitted(waits: nat)
    ensures !Permitted([], waits)
  {
  }

  /** A message is sent if and only if it needs no permission or gets it: the first queued frame that
      does not say "wait", among the first four, says "continue". Whatever the peer sends counts as an
      answer, so its own data can stop a message, or be taken for the permission. */
  lemma {:induction false} SentIff(l: Link, message: seq<byte>)
    requires Sound(l)
    ensures Send(l, message).0 == |message| <==> |message| <= 7 || Permitted(l.inbox, 3)
    ensures Send(l, message).0 in {0, |message|}
  {
    if 7 < |message| {
      AwaitIff(l.(sent := l.sent + [Encode(FirstFrame(|message|), message)]), 0);
    }
    hide AwaitFlowControl, Encode, Consecutives, Permitted;
  }

  /** Two bytes of the peer's own data are enough to have a message given up. */
  lemma {:induction false} OwnDataStops(l: Link, message: seq<byte>, a: byte, b: byte)
    requires Sound(l) && 7 < |message| && l.inbox == [Encode(SingleFrame(2), [a, b])]
    ensures Send(l, message).0 == 0
  {
    EncodeLayout(SingleFrame(2), [a, b]);
    assert FlowStatus(l.inbox[0]) == 2;
    hide Encode, Send;
    SentIff(l, message);
  }

  /** The messages streamAddToTxTimeout sends when every one of them is allowed to continue,
      and what it leaves in the FIFO. */
  ghost function Blocks(tx: seq<byte>, data: seq<byte>, size: nat): (r: (seq<seq<byte>>, seq<byte>))
    requires |tx| < size
    ensures |r.1| < size
    ensures forall i :: 0 <= i < |r.0| ==> |r.0[i]| == size
    ensures Flatten(r.0) + r.1 == tx + data
    decreases |data|
  {
    if |data| < size - |tx| then ([], tx + data)
    else
      var k := size - |tx|;
      var (blocks, rest) := Blocks([], data[k..], size);
      BlocksStep(tx, data, k, blocks, rest);
      ([tx + data[..k]] + blocks, rest)
  }

  lemma {:induction false} BlocksStep(tx: seq<byte>, data: seq<byte>, k: nat, blocks: seq<seq<byte>>, rest: seq<byte>)
    requires k <= |data| && Flatten(blocks) + rest == data[k..]
    ensures Flatten([tx + data[..k]] + blocks) + rest == tx + data
  {
    assert ([tx + data[..k]] + blocks)[1..] == blocks;
    hide Flatten;
    assert tx + data[..k] + Flatten(blocks) + rest == tx + (data[..k] + (Flatten(blocks) + rest));
    assert data == data[..k] + data[k..];
  }

  ghost function Frames(blocks: seq<seq<byte>>): seq<CanFrame> {
    if blocks == [] then [] else Segment(blocks[0]) + Frames(blocks[1..])
  }

  /** One "continue" answer for each of `n` long messages. */
  ghost predicate Answered(inbox: seq<CanFrame>, n: nat) {
    |inbox| == n && forall i :: 0 <= i < n ==> inbox[i] == FLOW_CONTROL_OK
  }

  /** A streamAddToTxTimeout with a cooperating peer is a sequence of Fill steps and a Park step. */
  lemma {:induction false} AddWithFlowControl(l: Link, tx: seq<byte>, data: seq<byte>, size: nat)
    requires 7 < size && |tx| < size && Sound(l)
    requires Answered(l.inbox, |Blocks(tx, data, size).0|)
    ensures var (blocks, rest) := Blocks(tx, data, size);
            && Add(l, tx, data, size).0 == rest
            && Add(l, tx, data, size).1 == l.(sent := l.sent + Frames(blocks), inbox := [])
    decreases |data|
  {
    hide Send, Segment, Frames;
    if |data| < size - |tx| {
      NoFrames(l.sent);
    } else {
      var k := size - |tx|;
      var full := tx + data[..k];
      SendWithFlowControl(l, full);
      var l1 := Send(l, full).1;
      AddWithFlowControl(l1, [], data[k..], size);
      FramesStep(l.sent, full, Blocks([], data[k..], size).0);
    }
  }

  lemma {:induction false} NoFrames(sent: seq<CanFrame>)
    ensures sent + Frames([]) == sent
  {
  }

  lemma {:induction false} FramesCons(full: seq<byte>, blocks: seq<seq<byte>>)
    ensures Frames([full] + blocks) == Segment(full) + Frames(blocks)
  {
    var all := [full] + blocks;
    assert all[0] == full && all[1..] == blocks;
    hide Segment;
  }

  lemma {:induction false} FramesStep(sent: seq<CanFrame>, full: seq<byte>, blocks: seq<seq<byte>>)
    ensures sent + Frames([full] + blocks) == sent + Segment(full) + Frames(blocks)
  {
    hide *;
    FramesCons(full, blocks);
    assert sent + Segment(full) + Frames(blocks) == sent + (Segment(full) + Frames(blocks));
  }

  /** Sends one block after the other until one is refused: how many went out, and the link afterwards. */
  ghost function SendAll(l: Link, blocks: seq<seq<byte>>): (r: (nat, Link))
    requires Sound(l)
    ensures Sound(r.1) && r.0 <= |blocks|
    decreases |blocks|
  {
    if blocks == [] then (0, l)
    else
      var (n, l1) := Send(l, blocks[0]);
      if n == 0 then (0, l1) else var (k, l2) := SendAll(l1, blocks[1..]); (k + 1, l2)
  }

  /** An add sends the full blocks in order. If all go out, the rest stays pending; if one is refused, that
      block stays pending, and what was to come behind it is dropped. */
  lemma {:induction false} AddIsBlocks(l: Link, tx: seq<byte>, data: seq<byte>, size: nat)
    requires Sound(l) && |tx| < size
    ensures var (blocks, rest) := Blocks(tx, data, size);
            var (k, l1) := SendAll(l, blocks);
            Add(l, tx, data, size) == (if k == |blocks| then rest else blocks[k], l1)
    decreases |data|
  {
    hide Send;
    if size - |tx| <= |data| {
      var k := size - |tx|;
      var full := tx + data[..k];
      var (n, l1) := Send(l, full);
      var blocks := Blocks([], data[k..], size).0;
      var all := [full] + blocks;
      assert all[0] == full && all[1..] == blocks;
      assert Blocks(tx, data, size) == (all, Blocks([], data[k..], size).1);
      if n > 0 {
        AddIsBlocks(l1, [], data[k..], size);
      }
    }
  }
}
