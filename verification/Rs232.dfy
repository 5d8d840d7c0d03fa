/** openblt_usb.cpp: boot loader packets on a byte stream, each behind a length byte. */
module Rs232 {
  import opened Util

  const RX_MAX_DATA := 200
  const RX_PACKET_TIMEOUT_MS := 100

  type Packet = p: seq<byte> | 0 < |p| <= RX_MAX_DATA witness [0]

  /** What Rs232TransmitPacket sends. */
  function Frame(p: seq<byte>): seq<byte>
    requires |p| < 256
  {
    [|p|] + p
  }

  predicate Plausible(length: byte) {
    0 < length <= RX_MAX_DATA
  }

  /** The packets in a byte stream, and the incomplete one at its end. A length byte out of range
      is skipped. */
  datatype Parsed = Parsed(packets: seq<seq<byte>>, rest: seq<byte>)

  function Parse(s: seq<byte>): (r: Parsed)
    ensures r.rest != [] ==> Plausible(r.rest[0]) && |r.rest| <= r.rest[0]
    ensures forall i :: 0 <= i < |r.packets| ==> 0 < |r.packets[i]| <= RX_MAX_DATA
  {
    if s == [] then Parsed([], [])
    else if !Plausible(s[0]) then Parse(s[1..])
    else if |s| <= s[0] then Parsed([], s)
    else
      var r := Parse(s[1 + s[0]..]);
      Parsed([s[1..1 + s[0]]] + r.packets, r.rest)
  }

  /** The receiver of the boot loader: static variables of Rs232ReceivePacket. */
  class Receiver {
    const xcpCtoReqPacket: array<byte>
    var xcpCtoRxLength: nat
    var xcpCtoRxInProgress: bool
    var xcpCtoRxStartTime: nat
    ghost var consumed: seq<byte>            // every byte read so far
    ghost var returned: seq<seq<byte>>       // every packet handed over so far

    /** The packet being assembled, with its length byte. */
    ghost function Partial(): seq<byte>
      reads this, xcpCtoReqPacket
    {
      if xcpCtoRxInProgress && xcpCtoRxLength < xcpCtoReqPacket.Length
      then xcpCtoReqPacket[..1 + xcpCtoRxLength] else []
    }

    ghost predicate Valid()
      reads this, xcpCtoReqPacket
    {
      && xcpCtoReqPacket.Length == RX_MAX_DATA + 1 && xcpCtoRxStartTime == 0
      && (xcpCtoRxInProgress ==> Plausible(xcpCtoReqPacket[0]) && xcpCtoRxLength < xcpCtoReqPacket[0])
      && Parse(consumed) == Parsed(returned, Partial())
    }

    constructor ()
      ensures Valid() && consumed == [] && returned == [] && fresh(xcpCtoReqPacket)
    {
      xcpCtoReqPacket := new byte[RX_MAX_DATA + 1](_ => 0);
      xcpCtoRxLength, xcpCtoRxInProgress, xcpCtoRxStartTime := 0, false, 0;
      consumed, returned := [], [];
    }

    /** TimerGet never advances in this boot loader. */
    function TimerGet(): nat {
      0
    }

    /** The first byte of a packet: its length, if it can be one. */
    method ReceiveLength(b: byte)
      requires Valid() && !xcpCtoRxInProgress
      modifies this, xcpCtoReqPacket
      ensures Valid() && consumed == old(consumed) + [b] && returned == old(returned)
    {
      ParseSnoc(consumed, b);
      hide Parse;
      xcpCtoReqPacket[0] := b;
      consumed := consumed + [b];
      if 0 < xcpCtoReqPacket[0] <= RX_MAX_DATA {
        xcpCtoRxStartTime := TimerGet();
        xcpCtoRxLength := 0;
        xcpCtoRxInProgress := true;
        assert Partial() == [b];
      }
    }

    /** Any further byte; the last one completes the packet. */
    method ReceiveData(b: byte, data: array<byte>) returns (received: bool, len: nat)
      requires Valid() && xcpCtoRxInProgress && data.Length >= RX_MAX_DATA && data != xcpCtoReqPacket
      modifies this, xcpCtoReqPacket, data
      ensures Valid() && consumed == old(consumed) + [b]
      ensures received ==> len <= data.Length && returned == old(returned) + [data[..len]]
      ensures !received ==> returned == old(returned)
    {
      ghost var partial := Partial();
      ParseSnoc(consumed, b);
      hide Parse;
      xcpCtoReqPacket[xcpCtoRxLength + 1] := b;
      consumed := consumed + [b];
      xcpCtoRxLength := xcpCtoRxLength + 1;
      assert xcpCtoReqPacket[..1 + xcpCtoRxLength] == partial + [b];
      received, len := xcpCtoRxLength == xcpCtoReqPacket[0], xcpCtoRxLength;
      if received {
        CopyPacket(data);
        assert data[..len] == (partial + [b])[1..];
        xcpCtoRxInProgress := false;
        returned := returned + [data[..len]];
      }
    }

    method CopyPacket(data: array<byte>)
      requires xcpCtoRxLength < xcpCtoReqPacket.Length && xcpCtoRxLength <= data.Length && data != xcpCtoReqPacket
      modifies data
      ensures data[..xcpCtoRxLength] == xcpCtoReqPacket[..1 + xcpCtoRxLength][1..]
    {
      forall i | 0 <= i < xcpCtoRxLength {
        data[i] := xcpCtoReqPacket[i + 1];
      }
    }

    /** One poll; `input` is the byte the USB port has, if it has one. A packet is returned as soon
        as its last byte is read, whatever came before. */
    method ReceivePacket(input: Option<byte>, data: array<byte>) returns (received: bool, len: nat)
      requires Valid() && data.Length >= RX_MAX_DATA && data != xcpCtoReqPacket
      modifies this, xcpCtoReqPacket, data
      ensures Valid()
      ensures consumed == old(consumed) + (if input.Some? then [input.value] else [])
      ensures received ==> len <= data.Length && returned == old(returned) + [data[..len]]
      ensures !received ==> returned == old(returned)
    {
      hide Parse;
      received, len := false, 0;
      if !xcpCtoRxInProgress {
        if input.Some? {
          ReceiveLength(input.value);
        }
      } else {
        if input.Some? {
          received, len := ReceiveData(input.value, data);
        } else {
          xcpCtoRxInProgress := TimerGet() <= xcpCtoRxStartTime + RX_PACKET_TIMEOUT_MS;
        }
      }
    }
  }

  // ---------- the parser ----------

  /** What one more byte does. */
  function Advance(r: Parsed, b: byte): Parsed {
    if r.rest == [] then (if Plausible(b) then r.(rest := [b]) else r)
    else if |r.rest| < r.rest[0] then r.(rest := r.rest + [b])
    else Parsed(r.packets + [(r.rest + [b])[1..]], [])
  }

  lemma {:induction false} ParseSnoc(s: seq<byte>, b: byte)
    ensures Parse(s + [b]) == Advance(Parse(s), b)
    decreases |s|
  {
    var t := s + [b];
    if s == [] {
      assert t == [b] && t[1..] == [];
    } else if !Plausible(s[0]) {
      assert t[1..] == s[1..] + [b];
      ParseSnoc(s[1..], b);
    } else {
      var n: nat := s[0];
      if |s| < n {
      } else if |s| == n {
        assert t[1 + n..] == [] && t[1..1 + n] == t[1..];
      } else {
        assert t[1 + n..] == s[1 + n..] + [b] && t[1..1 + n] == s[1..1 + n];
        ParseSnoc(s[1 + n..], b);
      }
    }
  }

  function Frames(packets: seq<Packet>): seq<byte> {
    if packets == [] then [] else Frame(packets[0]) + Frames(packets[1..])
  }

  lemma {:induction false} ParseFrame(p: Packet, behind: seq<byte>)
    ensures Parse(Frame(p) + behind) == Parsed([p] + Parse(behind).packets, Parse(behind).rest)
  {
    var s := Frame(p) + behind;
    var n: nat := |p|;
    assert s[0] == n && s[1..1 + n] == p && s[1 + n..] == behind;
  }

  /** Framed packets come back unchanged, in order, with nothing left over; behind them the
      stream is parsed as if they had not been there. */
  lemma {:induction false} ParseFrames(packets: seq<Packet>, behind: seq<byte>)
    ensures Parse(Frames(packets) + behind) == Parsed(packets + Parse(behind).packets, Parse(behind).rest)
    decreases |packets|
  {
    hide *;
    if packets == [] {
      NothingFramed(behind);
    } else {
      ParseFrames(packets[1..], behind);
      ParseFrame(packets[0], Frames(packets[1..]) + behind);
      FramesSplit(packets, behind);
      PacketsSplit(packets, Parse(behind).packets);
    }
  }

  lemma {:induction false} NothingFramed(behind: seq<byte>)
    ensures Frames([]) + behind == behind && [] + Parse(behind).packets == Parse(behind).packets
  {
    hide Parse;
  }

  lemma {:induction false} FramesSplit(packets: seq<Packet>, behind: seq<byte>)
    requires packets != []
    ensures Frames(packets) + behind == Frame(packets[0]) + (Frames(packets[1..]) + behind)
  {
    Associate(Frame(packets[0]), Frames(packets[1..]), behind);
    hide Frame;
  }

  lemma {:induction false} PacketsSplit(packets: seq<Packet>, more: seq<Packet>)
    requires packets != []
    ensures [packets[0]] + (packets[1..] + more) == packets + more
  {
    Associate([packets[0]], packets[1..], more);
    assert [packets[0]] + packets[1..] == packets;
  }

  /** A byte that cannot be a length is skipped where a packet should begin, any number of times. */
  lemma {:induction false} NoiseSkipped(noise: seq<byte>, behind: seq<byte>)
    requires forall b <- noise :: b == 0 || 200 < b
    ensures Parse(noise + behind) == Parse(behind)
    decreases |noise|
  {
    if noise == [] {
      assert noise + behind == behind;
    } else {
      assert noise[0] in noise;
      assert (noise + behind)[0] == noise[0] && (noise + behind)[1..] == noise[1..] + behind;
      assert forall b <- noise[1..] :: b in noise;
      NoiseSkipped(noise[1..], behind);
    }
  }

  method TransmitPacket(data: seq<byte>, sent: seq<byte>) returns (sent': seq<byte>)
    requires |data| < 256
    ensures sent' == sent + [|data|] + data == sent + Frame(data)
  {
    sent' := sent + [|data|];
    sent' := sent' + data;
  }

  /** Any packets, and any mixture of polls that find a byte and polls that do not: once all bytes
      were read, exactly the packets sent were returned, in order. */
  lemma {:induction false} RoundTrip(packets: seq<Packet>, r: Receiver)
    requires r.Valid() && r.consumed == Frames(packets)
    ensures r.returned == packets && r.Partial() == []
  {
    ParseFrames(packets, []);
    assert Frames(packets) + [] == Frames(packets) && packets + [] == packets;
  }

  /** Before that, a prefix of them. */
  lemma {:induction false} ParsePrefix(a: seq<byte>, b: seq<byte>)
    ensures Parse(a).packets <= Parse(a + b).packets
    decreases |b|
  {
    if b == [] {
      assert a + b == a;
    } else {
      ParsePrefix(a, b[..|b| - 1]);
      ParseSnoc(a + b[..|b| - 1], b[|b| - 1]);
      assert a + b == a + b[..|b| - 1] + [b[|b| - 1]];
    }
  }

  lemma {:induction false} OnlyWhatWasSent(packets: seq<Packet>, unread: seq<byte>, r: Receiver)
    requires r.Valid() && r.consumed + unread == Frames(packets)
    ensures r.returned <= packets
  {
    ParsePrefix(r.consumed, unread);
    ParseFrames(packets, []);
    assert Frames(packets) + [] == Frames(packets) && packets + [] == packets;
  }
}
