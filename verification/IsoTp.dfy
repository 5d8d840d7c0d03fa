/** The ISO-TP (ISO 15765-2) frame format as serial_can.cpp uses it: how one
    message becomes frames, and how frames become a byte stream again. */
module IsoTp {
  import opened Util

  datatype RawFrame = CanFrame(dlc: byte, data8: seq<byte>)

  type CanFrame = f: RawFrame | |f.data8| == 8 witness CanFrame(8, [0, 0, 0, 0, 0, 0, 0, 0])

  datatype IsoTpFrameHeader =
    | SingleFrame(numBytes: nat)
    | FirstFrame(numBytes: nat)
    | ConsecutiveFrame(index: nat)
    | FlowControlFrame(fcFlag: nat, blockSize: nat, separationTime: nat)

  const FRAME_SINGLE := 0
  const FRAME_FIRST := 1
  const FRAME_CONSECUTIVE := 2
  const FRAME_FLOW_CONTROL := 3

  const CONTINUE_TO_SEND := FlowControlFrame(0, 0, 0)

  // ---------- sending ----------

  /** The protocol bytes at the start of a frame. */
  function Prefix(header: IsoTpFrameHeader): (p: seq<byte>)
    ensures 1 <= |p| <= 3
  {
    match header
    case SingleFrame(n) => [FRAME_SINGLE * 16 + Min(n, 7)]
    case FirstFrame(n) => [FRAME_FIRST * 16 + n / 256 % 16, n % 256]
    case ConsecutiveFrame(index) => [FRAME_CONSECUTIVE * 16 + index % 16]
    case FlowControlFrame(flag, block, time) => [FRAME_FLOW_CONTROL * 16 + flag % 16, block % 256, time % 256]
  }

  /** How many of `num` offered bytes a frame carries. */
  function PayloadSize(header: IsoTpFrameHeader, num: nat): nat {
    match header
    case SingleFrame(n) => Min(Min(n, 7), num)
    case FirstFrame(n) => Min(Min(n, 6), num)
    case ConsecutiveFrame(_) => Min(7, num)
    case FlowControlFrame(_, _, _) => 0
  }

  function Encode(header: IsoTpFrameHeader, data: seq<byte>): CanFrame {
    var content := Prefix(header) + data[..PayloadSize(header, |data|)];
    CanFrame(8, content + Zeros(8 - |content|))
  }

  const FLOW_CONTROL_OK: CanFrame := Encode(CONTINUE_TO_SEND, [])

  function Consecutives(rest: seq<byte>, index: nat): seq<CanFrame> {
    if rest == [] then [] else
      var n := Min(|rest|, 7);
      [Encode(ConsecutiveFrame(index % 16), rest[..n])] + Consecutives(rest[n..], index + 1)
  }

  /** Every frame a message is sent as. */
  function Segment(message: seq<byte>): seq<CanFrame> {
    if message == [] then []
    else if |message| <= 7 then [Encode(SingleFrame(|message|), message)]
    else [Encode(FirstFrame(|message|), message)] + Consecutives(message[6..], 1)
  }

  // ---------- receiving ----------

  /** What receiveFrame remembers between frames. */
  datatype Reassembly = Reassembly(waitingForNumBytes: int, waitingForFrameIndex: int)

  datatype Reception = Ignored | Data(payload: seq<byte>, next: Reassembly)

  function FrameType(f: CanFrame): nat {
    f.data8[0] / 16
  }

  predicate IsFirst(f: CanFrame) {
    f.dlc >= 1 && FrameType(f) == FRAME_FIRST
  }

  /** A single frame has seven data bytes; receiveFrame trusts the sender's length nibble. */
  predicate Readable(f: CanFrame) {
    f.dlc >= 1 && FrameType(f) == FRAME_SINGLE ==> f.data8[0] % 16 <= 7
  }

  function Decode(r: Reassembly, f: CanFrame): Reception
    requires Readable(f)
  {
    var low: int := f.data8[0] % 16;
    if f.dlc < 1 then Ignored
    else if FrameType(f) == FRAME_SINGLE then
      Data(f.data8[1..1 + low], Reassembly(-1 - low, r.waitingForFrameIndex))
    else if FrameType(f) == FRAME_FIRST then
      var total: int := low * 256 + f.data8[1];
      var n := Min(total, 6);
      Data(f.data8[2..2 + n], Reassembly(total - n, 1))
    else if FrameType(f) == FRAME_CONSECUTIVE && r.waitingForNumBytes >= 0 && r.waitingForFrameIndex == low then
      var n := Min(r.waitingForNumBytes, 7);
      Data(f.data8[1..1 + n], Reassembly(r.waitingForNumBytes - n, (r.waitingForFrameIndex + 1) % 16))
    else Ignored
  }

  predicate AllReadable(frames: seq<CanFrame>) {
    forall i :: 0 <= i < |frames| ==> Readable(frames[i])
  }

  /** The bytes a sequence of frames delivers, and the receiver state it leaves. */
  function Delivered(r: Reassembly, frames: seq<CanFrame>): seq<byte>
    requires AllReadable(frames)
    decreases |frames|
  {
    if frames == [] then [] else
      match Decode(r, frames[0])
      case Ignored => Delivered(r, frames[1..])
      case Data(payload, next) => payload + Delivered(next, frames[1..])
  }

  function After(r: Reassembly, frames: seq<CanFrame>): Reassembly
    requires AllReadable(frames)
    decreases |frames|
  {
    if frames == [] then r else
      match Decode(r, frames[0])
      case Ignored => After(r, frames[1..])
      case Data(_, next) => After(next, frames[1..])
  }

  lemma {:induction false} DeliveredConcat(r: Reassembly, a: seq<CanFrame>, b: seq<CanFrame>)
    requires AllReadable(a) && AllReadable(b)
    ensures AllReadable(a + b)
    ensures Delivered(r, a + b) == Delivered(r, a) + Delivered(After(r, a), b)
    ensures After(r, a + b) == After(After(r, a), b)
    decreases |a|
  {
    hide Decode, Readable;
    if a == [] {
      assert a + b == b;
    } else {
      var next := match Decode(r, a[0]) case Ignored => r case Data(_, n) => n;
      DeliveredConcat(next, a[1..], b);
      assert (a + b)[0] == a[0] && (a + b)[1..] == a[1..] + b;
    }
  }

  lemma {:induction false} DeliveredCons(r: Reassembly, f: CanFrame, tail: seq<CanFrame>)
    requires Readable(f) && AllReadable(tail)
    ensures AllReadable([f] + tail)
    ensures Decode(r, f).Data? ==>
              && Delivered(r, [f] + tail) == Decode(r, f).payload + Delivered(Decode(r, f).next, tail)
              && After(r, [f] + tail) == After(Decode(r, f).next, tail)
    ensures Decode(r, f).Ignored? ==>
              Delivered(r, [f] + tail) == Delivered(r, tail) && After(r, [f] + tail) == After(r, tail)
  {
    assert ([f] + tail)[1..] == tail;
  }

  // ---------- a message arrives as it was sent ----------

  /** Where Encode puts its bytes. */
  lemma {:induction false} EncodeLayout(header: IsoTpFrameHeader, data: seq<byte>)
    ensures var f := Encode(header, data);
            var p := Prefix(header);
            && f.dlc == 8
            && f.data8[0] == p[0]
            && (|p| > 1 ==> f.data8[1] == p[1])
            && f.data8[|p|..|p| + PayloadSize(header, |data|)] == data[..PayloadSize(header, |data|)]
  {
  }

  lemma {:induction false} ConsecutiveHeader(index: nat, data: seq<byte>)
    ensures var f := Encode(ConsecutiveFrame(index % 16), data);
            f.dlc == 8 && FrameType(f) == FRAME_CONSECUTIVE && f.data8[0] % 16 == index % 16 && Readable(f) && !IsFirst(f)
  {
    EncodeLayout(ConsecutiveFrame(index % 16), data);
    hide Encode;
  }

  lemma {:induction false} ConsecutiveDecodes(r: Reassembly, data: seq<byte>, index: nat)
    requires 0 <= r.waitingForNumBytes && r.waitingForFrameIndex == index % 16
    requires Min(r.waitingForNumBytes, 7) <= |data| <= 7
    ensures var f := Encode(ConsecutiveFrame(index % 16), data);
            var k := Min(r.waitingForNumBytes, 7);
            && FrameType(f) == FRAME_CONSECUTIVE && f.data8[0] % 16 == index % 16
            && Decode(r, f) == Data(data[..k], Reassembly(r.waitingForNumBytes - k, (index + 1) % 16))
  {
    var header := ConsecutiveFrame(index % 16);
    EncodeLayout(header, data);
    ConsecutiveHeader(index, data);
    hide Encode, IsFirst;
    var f, k := Encode(header, data), Min(r.waitingForNumBytes, 7);
    TakeOfSlice(f.data8, 1, 1 + |data|, k);
    assert data[..|data|] == data;
  }

  lemma {:induction false} ConsecutivesStep(rest: seq<byte>, index: nat)
    requires rest != []
    ensures var n := Min(|rest|, 7);
            && Consecutives(rest, index) == [Encode(ConsecutiveFrame(index % 16), rest[..n])] + Consecutives(rest[n..], index + 1)
            && Readable(Encode(ConsecutiveFrame(index % 16), rest[..n]))
    ensures Consecutives([], index) == []
  {
    ConsecutiveDecodes(Reassembly(0, index % 16), rest[..Min(|rest|, 7)], index);
    hide Encode;
  }

  lemma {:induction false} NothingDelivered(r: Reassembly, index: nat)
    ensures Consecutives([], index) == [] && Delivered(r, []) == []
  {
  }

  lemma {:induction false} ConsecutivesDeliver(rest: seq<byte>, index: nat, waiting: nat)
    requires waiting <= |rest|
    ensures AllReadable(Consecutives(rest, index))
    ensures Delivered(Reassembly(waiting, index % 16), Consecutives(rest, index)) == rest[..waiting]
    decreases |rest|
  {
    hide Encode, Decode, Consecutives, Delivered, After, AllReadable, Readable;
    if rest == [] {
      NothingDelivered(Reassembly(waiting, index % 16), index);
      assert AllReadable([]) by { NothingToRead(); }
    } else {
      var n := Min(|rest|, 7);
      var k := Min(waiting, 7);
      ConsecutivesStep(rest, index);
      ConsecutivesDeliver(rest[n..], index + 1, waiting - k);
      ConsecutiveDecodes(Reassembly(waiting, index % 16), rest[..n], index);
      DeliveredCons(Reassembly(waiting, index % 16), Encode(ConsecutiveFrame(index % 16), rest[..n]), Consecutives(rest[n..], index + 1));
      TakeOfSlice(rest, 0, n, k);
      if k < 7 {
        assert rest[n..][..0] == [];
      } else {
        SliceOfTail(rest, n, 0, waiting - k);
        JoinSlices(rest, 0, k, waiting);
      }
    }
  }

  lemma {:induction false} NothingToRead()
    ensures AllReadable([])
  {
  }

  lemma {:induction false} LengthField(n: nat)
    ensures n / 256 % 16 * 256 + n % 256 == n % 4096
  {
    assert n == 256 * (n / 256) + n % 256;
    assert n / 256 == 16 * (n / 256 / 16) + n / 256 % 16;
    assert n == 4096 * (n / 256 / 16) + (n / 256 % 16 * 256 + n % 256);
  }

  lemma {:induction false} FirstDecodes(r: Reassembly, message: seq<byte>)
    requires 7 < |message|
    ensures var total := |message| % 4096;
            var f := Encode(FirstFrame(|message|), message);
            && IsFirst(f)
            && Decode(r, f) == Data(message[..Min(total, 6)], Reassembly(total - Min(total, 6), 1))
  {
    EncodeLayout(FirstFrame(|message|), message);
    LengthField(|message|);
    var f := Encode(FirstFrame(|message|), message);
    var high := |message| / 256 % 16;
    assert f.data8[0] == 16 + high && f.data8[0] / 16 == 1 && f.data8[0] % 16 == high;
    var n := Min(|message| % 4096, 6);
    assert f.data8[2..2 + n] == f.data8[2..8][..n] == message[..n];
  }

  lemma {:induction false} SingleDecodes(r: Reassembly, message: seq<byte>)
    requires 0 < |message| <= 7
    ensures var f := Encode(SingleFrame(|message|), message);
            && Readable(f) && !IsFirst(f)
            && Decode(r, f) == Data(message, Reassembly(-1 - |message|, r.waitingForFrameIndex))
  {
    EncodeLayout(SingleFrame(|message|), message);
    assert message[..|message|] == message;
  }

  lemma {:induction false} FirstThenConsecutivesDeliver(r: Reassembly, f: CanFrame, message: seq<byte>)
    requires 7 < |message| && IsFirst(f)
    requires var total := |message| % 4096;
             Decode(r, f) == Data(message[..Min(total, 6)], Reassembly(total - Min(total, 6), 1))
    ensures AllReadable([f] + Consecutives(message[6..], 1))
    ensures Delivered(r, [f] + Consecutives(message[6..], 1)) == message[..|message| % 4096]
  {
    hide Encode, Decode, Consecutives, Delivered, After, AllReadable;
    var total := |message| % 4096;
    var n := Min(total, 6);
    ConsecutivesDeliver(message[6..], 1, total - n);
    DeliveredCons(r, f, Consecutives(message[6..], 1));
    assert message[..n] + message[6..][..total - n] == message[..total];
  }

  /** Whatever the receiver saw before, one segmented message delivers exactly its bytes, except
      that the twelve-bit length of a FirstFrame keeps only the length modulo 4096. */
  lemma {:induction false} SegmentDelivers(r: Reassembly, message: seq<byte>)
    ensures AllReadable(Segment(message))
    ensures Delivered(r, Segment(message))
         == if |message| <= 7 then message else message[..|message| % 4096]
  {
    if message == [] {
    } else if |message| <= 7 {
      SingleDecodes(r, message);
      DeliveredCons(r, Encode(SingleFrame(|message|), message), []);
    } else {
      FirstDecodes(r, message);
      FirstThenConsecutivesDeliver(r, Encode(FirstFrame(|message|), message), message);
    }
  }

  /** The segmentation is invisible exactly for messages the length field can express. */
  lemma {:induction false} SegmentTransparentIff(r: Reassembly, message: seq<byte>)
    ensures AllReadable(Segment(message))
    ensures Delivered(r, Segment(message)) == message <==> |message| < 4096
  {
    SegmentDelivers(r, message);
    hide Segment, Delivered, AllReadable;
  }

  // ---------- the bytes on the bus ----------

  lemma {:induction false} ConsecutiveAt(rest: seq<byte>, index: nat, p: nat)
    ensures |Consecutives(rest, index)| == (|rest| + 6) / 7
    ensures p < |Consecutives(rest, index)| ==>
              && 7 * p < |rest|
              && var data := rest[7 * p..Min(7 * p + 7, |rest|)];
                 && Consecutives(rest, index)[p] == Encode(ConsecutiveFrame((index + p) % 16), data)
                 && Readable(Consecutives(rest, index)[p])
    decreases |rest|
  {
    hide Encode, Decode, Consecutives, Readable;
    if rest == [] {
      NothingDelivered(Reassembly(0, 0), index);
    } else {
      ConsecutivesStep(rest, index);
      var n := Min(|rest|, 7);
      ConsecutiveAt(rest[n..], index + 1, if p == 0 then 0 else p - 1);
      if 0 < p < |Consecutives(rest, index)| {
        SliceOfTail(rest, 7, 7 * (p - 1), Min(7 * (p - 1) + 7, |rest| - 7));
      }
    }
  }

  lemma {:induction false} SingleBytes(message: seq<byte>)
    requires 0 < |message| <= 7
    ensures Segment(message) == [CanFrame(8, [|message|] + message + Zeros(7 - |message|))]
  {
    assert message[..|message|] == message;
  }

  lemma {:induction false} FirstBytes(message: seq<byte>)
    requires 7 < |message|
    ensures Encode(FirstFrame(|message|), message) == CanFrame(8, [16 + |message| / 256 % 16, |message| % 256] + message[..6])
  {
    var content := Prefix(FirstFrame(|message|)) + message[..6];
    assert content + Zeros(0) == content;
  }

  lemma {:induction false} ConsecutiveBytes(index: nat, data: seq<byte>)
    requires |data| <= 7
    ensures Encode(ConsecutiveFrame(index % 16), data) == CanFrame(8, [32 + index % 16] + data + Zeros(7 - |data|))
  {
    assert data[..|data|] == data;
  }

  lemma {:induction false} FlowControlBytes()
    ensures FLOW_CONTROL_OK == CanFrame(8, [48, 0, 0, 0, 0, 0, 0, 0])
  {
    assert [48, 0, 0] + Zeros(5) == [48, 0, 0, 0, 0, 0, 0, 0];
  }

  lemma {:induction false} SegmentLength(message: seq<byte>)
    requires 7 < |message|
    ensures |Segment(message)| == 1 + |message| / 7 && Segment(message)[0] == Encode(FirstFrame(|message|), message)
    ensures forall p :: 1 <= p < |Segment(message)| ==> Segment(message)[p] == Consecutives(message[6..], 1)[p - 1]
  {
    ConsecutiveAt(message[6..], 1, 0);
    hide Encode, Consecutives, Readable;
  }

  /** The bytes behind the header of frame `p`. */
  function Part(message: seq<byte>, p: nat): (data: seq<byte>)
    requires 1 <= p && 7 * p - 1 < |message|
    ensures 1 <= |data| <= 7
  {
    message[7 * p - 1..Min(7 * p + 6, |message|)]
  }

  lemma {:induction false} LaterFrame(message: seq<byte>, p: nat)
    requires 7 < |message| && 1 <= p <= |message| / 7 && p < |Segment(message)|
    ensures Segment(message)[p] == CanFrame(8, [32 + p % 16] + Part(message, p) + Zeros(7 - |Part(message, p)|))
  {
    SegmentLength(message);
    var rest := message[6..];
    hide Segment, Consecutives, Encode, Readable, Part;
    ConsecutiveAt(rest, 1, p - 1);
    PartOfRest(message, p);
    ConsecutiveBytes(p, Part(message, p));
  }

  lemma {:induction false} PartOfRest(message: seq<byte>, p: nat)
    requires 7 < |message| && 1 <= p <= |message| / 7
    ensures message[6..][7 * (p - 1)..Min(7 * (p - 1) + 7, |message| - 6)] == Part(message, p)
  {
    SliceOfTail(message, 6, 7 * (p - 1), Min(7 * (p - 1) + 7, |message| - 6));
  }

  /** Every byte of a message that needs more than one frame. */
  lemma {:induction false} SegmentBytes(message: seq<byte>)
    requires 7 < |message|
    ensures |Segment(message)| == 1 + |message| / 7
    ensures Segment(message)[0] == CanFrame(8, [16 + |message| / 256 % 16, |message| % 256] + message[..6])
    ensures forall p :: 1 <= p <= |message| / 7 ==>
              Segment(message)[p] == CanFrame(8, [32 + p % 16] + Part(message, p) + Zeros(7 - |Part(message, p)|))
  {
    hide *;
    SegmentLength(message);
    FirstBytes(message);
    forall p | 1 <= p <= |message| / 7
      ensures Segment(message)[p] == CanFrame(8, [32 + p % 16] + Part(message, p) + Zeros(7 - |Part(message, p)|))
    {
      LaterFrame(message, p);
    }
  }

  /** A frame that brings no data: neither a single frame nor a FirstFrame, nor the ConsecutiveFrame that
      is being waited for. */
  predicate Stray(r: Reassembly, f: CanFrame) {
    || f.dlc == 0
    || f.data8[0] / 16 >= 3
    || (f.data8[0] / 16 == 2 && (r.waitingForNumBytes < 0 || f.data8[0] % 16 != r.waitingForFrameIndex))
  }

  /** Such frames, in any number, change nothing; and after a single frame no ConsecutiveFrame is waited
      for. */
  lemma {:induction false} StrayIgnored(r: Reassembly, frames: seq<CanFrame>)
    requires forall f <- frames :: Stray(r, f)
    ensures AllReadable(frames) && Delivered(r, frames) == [] && After(r, frames) == r
    decreases |frames|
  {
    if frames != [] {
      assert Stray(r, frames[0]);
      StrayIgnored(r, frames[1..]);
      assert frames == [frames[0]] + frames[1..];
      DeliveredCons(r, frames[0], frames[1..]);
    }
  }

  lemma {:induction false} SingleEndsWaiting(r: Reassembly, f: CanFrame)
    requires Readable(f) && 0 < f.dlc && f.data8[0] < 16
    ensures Decode(r, f).Data? && Decode(r, f).next.waitingForNumBytes < 0
  {
  }
}
