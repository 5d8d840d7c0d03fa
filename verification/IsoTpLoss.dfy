/** What a lossy, duplicating or reordering channel can do to one multi-frame message:
    the four-bit frame index protects messages of at most sixteen ConsecutiveFrames. */
module IsoTpLoss {
  import opened Util
  import opened IsoTp

  /** The ConsecutiveFrames of a long message. */
  function Tail(message: seq<byte>): seq<CanFrame>
    requires 7 < |message|
  {
    Consecutives(message[6..], 1)
  }

  ghost predicate Picks(message: seq<byte>, picks: seq<nat>)
    requires 7 < |message|
  {
    forall i :: 0 <= i < |picks| ==> picks[i] < |Tail(message)|
  }

  /** Any choice of the message's ConsecutiveFrames: some lost, some repeated, in any order. */
  ghost function Arrivals(message: seq<byte>, picks: seq<nat>): (frames: seq<CanFrame>)
    requires 7 < |message| && Picks(message, picks)
    ensures AllReadable(frames)
  {
    if picks == [] then [] else
      ConsecutiveAt(message[6..], 1, picks[0]);
      assert forall i :: 0 <= i < |picks[1..]| ==> picks[1..][i] == picks[i + 1];
      [Tail(message)[picks[0]]] + Arrivals(message, picks[1..])
  }

  ghost predicate DeliversPrefix(r: Reassembly, message: seq<byte>, picks: seq<nat>)
    requires 7 < |message| && Picks(message, picks)
  {
    FirstDecodes(r, message);
    Delivered(r, [Encode(FirstFrame(|message|), message)] + Arrivals(message, picks)) <= message
  }

  /** No arrival pattern of any message of this length yields a gap, a repeat or a foreign byte. */
  ghost predicate LossSafe(length: nat)
    requires 7 < length
  {
    forall r, message: seq<byte>, picks: seq<nat> |
      |message| == length && Picks(message, picks) :: DeliversPrefix(r, message, picks)
  }

  /** The bytes of the message that its frame `p` after the first one carries. */
  function Chunk(message: seq<byte>, p: nat): seq<byte>
    requires 6 + 7 * p < |message|
  {
    message[6 + 7 * p..Min(6 + 7 * p + 7, |message|)]
  }

  lemma {:induction false} ChunkOfTail(message: seq<byte>, p: nat)
    requires 7 < |message| && 7 * p < |message| - 6
    ensures message[6..][7 * p..Min(7 * p + 7, |message| - 6)] == Chunk(message, p)
  {
    SliceOfTail(message, 6, 7 * p, Min(7 * p + 7, |message| - 6));
  }

  lemma {:induction false} TailChunk(message: seq<byte>, p: nat)
    requires 7 < |message| && p < |Tail(message)|
    ensures 6 + 7 * p < |message| && Tail(message)[p] == Encode(ConsecutiveFrame((1 + p) % 16), Chunk(message, p))
  {
    assert Tail(message) == Consecutives(message[6..], 1);
    hide *;
    ConsecutiveAt(message[6..], 1, p);
    ChunkOfTail(message, p);
  }

  lemma {:induction false} TailFrame(message: seq<byte>, p: nat)
    requires 7 < |message| && p < |Tail(message)|
    ensures 6 + 7 * p < |message| && Tail(message)[p] == Encode(ConsecutiveFrame((1 + p) % 16), Chunk(message, p))
    ensures var f := Tail(message)[p];
            f.dlc == 8 && FrameType(f) == FRAME_CONSECUTIVE && f.data8[0] % 16 == (1 + p) % 16
  {
    hide *;
    TailChunk(message, p);
    ConsecutiveHeader(1 + p, Chunk(message, p));
  }

  /** A ConsecutiveFrame with another index than the awaited one changes nothing. */
  lemma {:induction false} OtherIndexIgnored(r: Reassembly, f: CanFrame)
    requires f.dlc == 8 && FrameType(f) == FRAME_CONSECUTIVE && f.data8[0] % 16 != r.waitingForFrameIndex
    ensures Readable(f) && Decode(r, f) == Ignored
  {
  }

  lemma {:induction false} AwaitedAccepted(message: seq<byte>, waiting: nat, p: nat)
    requires 7 < |message| && p < |Tail(message)| && 0 < waiting == |message| - 6 - 7 * p
    ensures Readable(Tail(message)[p])
    ensures Decode(Reassembly(waiting, (1 + p) % 16), Tail(message)[p])
         == Data(message[|message| - waiting..][..Min(waiting, 7)], Reassembly(waiting - Min(waiting, 7), (2 + p) % 16))
  {
    hide Encode, Decode, Tail;
    TailFrame(message, p);
    var from, k := 6 + 7 * p, Min(waiting, 7);
    ConsecutiveDecodes(Reassembly(waiting, (1 + p) % 16), Chunk(message, p), 1 + p);
    TakeOfSlice(message, from, Min(from + 7, |message|), k);
    TakeOfSlice(message, from, |message|, k);
    assert message[from..|message|] == message[from..];
  }

  /** One arriving frame: it is the awaited one and continues the message, or it is not and changes nothing. */
  lemma {:induction false} ArrivalStep(message: seq<byte>, waiting: nat, accepted: nat, p: nat)
    requires 7 < |message| <= 118 && p < |Tail(message)|
    requires 0 < waiting == |message| - 6 - 7 * accepted
    ensures Readable(Tail(message)[p])
    ensures Decode(Reassembly(waiting, (1 + accepted) % 16), Tail(message)[p])
         == if p == accepted
            then Data(message[|message| - waiting..][..Min(waiting, 7)],
                      Reassembly(waiting - Min(waiting, 7), (2 + accepted) % 16))
            else Ignored
  {
    hide Encode, Decode, Tail, Readable;
    if p == accepted {
      AwaitedAccepted(message, waiting, p);
    } else {
      TailFrame(message, p);
      assert p < 16 && accepted < 16;
      OtherIndexIgnored(Reassembly(waiting, (1 + accepted) % 16), Tail(message)[p]);
    }
  }

  /** Once nothing is awaited, further ConsecutiveFrames deliver nothing. */
  lemma {:induction false} NothingMore(message: seq<byte>, index: int, picks: seq<nat>)
    requires 7 < |message| && Picks(message, picks)
    ensures Delivered(Reassembly(0, index), Arrivals(message, picks)) == []
    decreases |picks|
  {
    if picks != [] {
      var f := Tail(message)[picks[0]];
      TailFrame(message, picks[0]);
      assert Picks(message, picks[1..]);
      DeliveredCons(Reassembly(0, index), f, Arrivals(message, picks[1..]));
      NothingMore(message, (index + 1) % 16, picks[1..]);
      NothingMore(message, index, picks[1..]);
    }
  }

  lemma {:induction false} ArrivalsStep(message: seq<byte>, picks: seq<nat>)
    requires 7 < |message| && Picks(message, picks) && picks != []
    ensures Picks(message, picks[1..]) && picks[0] < |Tail(message)|
    ensures Arrivals(message, picks) == [Tail(message)[picks[0]]] + Arrivals(message, picks[1..])
  {
    hide Tail;
    assert forall i :: 0 <= i < |picks[1..]| ==> picks[1..][i] == picks[i + 1];
  }

  lemma {:induction false} PrefixGrows(payload: seq<byte>, more: seq<byte>, s: seq<byte>, k: nat)
    requires k <= |s| && payload == s[..k] && more <= s[k..]
    ensures payload + more <= s
  {
    assert s == s[..k] + s[k..];
  }

  lemma {:induction false} LossyTail(message: seq<byte>, waiting: nat, accepted: nat, picks: seq<nat>)
    requires 7 < |message| <= 118 && Picks(message, picks)
    requires 0 < waiting == |message| - 6 - 7 * accepted
    ensures Delivered(Reassembly(waiting, (1 + accepted) % 16), Arrivals(message, picks)) <= message[|message| - waiting..]
    decreases |picks|
  {
    hide Encode, Decode, Tail, Delivered, After, Readable, AllReadable, Picks, Arrivals;
    var r, rest := Reassembly(waiting, (1 + accepted) % 16), message[|message| - waiting..];
    if picks == [] {
      NoArrivals(r, message);
    } else {
      ArrivalsStep(message, picks);
      ArrivalStep(message, waiting, accepted, picks[0]);
      DeliveredCons(r, Tail(message)[picks[0]], Arrivals(message, picks[1..]));
      if picks[0] != accepted {
        LossyTail(message, waiting, accepted, picks[1..]);
      } else if waiting <= 7 {
        NothingMore(message, (2 + accepted) % 16, picks[1..]);
        PrefixGrows(rest[..waiting], [], rest, waiting);
      } else {
        LossyTail(message, waiting - 7, accepted + 1, picks[1..]);
        assert rest[7..] == message[|message| - (waiting - 7)..];
        PrefixGrows(rest[..7], Delivered(Reassembly(waiting - 7, (2 + accepted) % 16), Arrivals(message, picks[1..])), rest, 7);
      }
    }
  }

  lemma {:induction false} NoArrivals(r: Reassembly, message: seq<byte>)
    requires 7 < |message|
    ensures Picks(message, []) && Arrivals(message, []) == [] && Delivered(r, []) == []
  {
  }

  /** A FirstFrame delivers six bytes and awaits the rest. */
  lemma {:induction false} FirstThen(r: Reassembly, message: seq<byte>, tail: seq<CanFrame>)
    requires 7 < |message| < 4096 && AllReadable(tail)
    ensures AllReadable([Encode(FirstFrame(|message|), message)] + tail)
    ensures Delivered(r, [Encode(FirstFrame(|message|), message)] + tail)
         == message[..6] + Delivered(Reassembly(|message| - 6, 1), tail)
  {
    hide Encode, Delivered, AllReadable, Decode;
    FirstDecodes(r, message);
    assert |message| % 4096 == |message|;
    DeliveredCons(r, Encode(FirstFrame(|message|), message), tail);
  }

  lemma {:induction false} ShortIsLossSafe(r: Reassembly, message: seq<byte>, picks: seq<nat>)
    requires 7 < |message| <= 118 && Picks(message, picks)
    ensures DeliversPrefix(r, message, picks)
  {
    hide Delivered, Encode, Arrivals, Picks, Tail, AllReadable;
    var tail := Arrivals(message, picks);
    FirstThen(r, message, tail);
    LossyTail(message, |message| - 6, 0, picks);
    PrefixGrows(message[..6], Delivered(Reassembly(|message| - 6, 1), tail), message, 6);
  }

  ghost function Marked(length: nat): (m: seq<byte>)
    ensures |m| == length && forall i :: 0 <= i < length ==> m[i] == if i < 13 then 1 else 0
  {
    seq(length, i => if i < 13 then 1 else 0)
  }

  lemma {:induction false} SeventeenthAccepted(message: seq<byte>)
    requires 118 < |message| < 4096
    ensures Picks(message, [16])
    ensures var got := Delivered(Reassembly(|message| - 6, 1), Arrivals(message, [16]));
            |got| == 7 && got[0] == message[118]
  {
    hide Encode, Consecutives;
    ConsecutiveAt(message[6..], 1, 16);
    var f := Tail(message)[16];
    TailFrame(message, 16);
    var data := message[118..Min(125, |message|)];
    EncodeLayout(ConsecutiveFrame(1), data);
    assert [16][1..] == [];
    assert Arrivals(message, [16]) == [f] + [];
    DeliveredCons(Reassembly(|message| - 6, 1), f, []);
    assert f.data8[1..1 + |data|][0] == data[0];
  }

  /** Losing the first sixteen ConsecutiveFrames of a longer message goes unnoticed: the
      seventeenth carries the awaited index again and its bytes are taken for the first one's. */
  lemma {:induction false} LongIsNotLossSafe(r: Reassembly, length: nat)
    requires 118 < length < 4096
    ensures Picks(Marked(length), [16]) && !DeliversPrefix(r, Marked(length), [16])
  {
    var message := Marked(length);
    SeventeenthAccepted(message);
    var tail := Arrivals(message, [16]);
    FirstThen(r, message, tail);
    var foreign := Delivered(Reassembly(length - 6, 1), tail);
    assert (message[..6] + foreign)[6] == foreign[0] == 0 != message[6];
  }

  /** Exactly the messages of at most a FirstFrame and sixteen ConsecutiveFrames are safe. */
  lemma {:induction false} LossSafeIff(length: nat)
    requires 7 < length < 4096
    ensures LossSafe(length) <==> length <= 118
  {
    if length <= 118 {
      forall r, message: seq<byte>, picks: seq<nat> | |message| == length && Picks(message, picks)
        ensures DeliversPrefix(r, message, picks)
      {
        ShortIsLossSafe(r, message, picks);
      }
    } else {
      LongIsNotLossSafe(Reassembly(0, 0), length);
    }
  }
}
