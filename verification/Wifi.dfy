/** wifi_console.cpp and the sending half of wifi_socket.cpp: writes are collected in one buffer
    and handed to the socket by the driver thread while the writer waits. */
module Wifi {
  import opened Util

  const SOCKET_BUFFER_MAX_LENGTH := 1400

  /** ServerSocket with a connected client. The socket library takes any payload offered. */
  class ServerSocket {
    var m_sendBuffer: seq<byte>
    var m_sendRequest: bool
    var m_sendDone: bool              // the binary semaphore
    var payloads: seq<seq<byte>>      // what the socket library was given

    ghost predicate Quiet()
      reads this
    {
      !m_sendRequest && !m_sendDone
    }

    constructor ()
      ensures Quiet() && payloads == []
    {
      m_sendBuffer, m_sendRequest, m_sendDone, payloads := [], false, false, [];
    }

    method TrySendImpl() returns (sent: bool)
      modifies this`payloads, this`m_sendRequest
      ensures sent == old(m_sendRequest) && !m_sendRequest
      ensures payloads == if sent then old(payloads) + [m_sendBuffer] else old(payloads)
    {
      if m_sendRequest {
        payloads := payloads + [m_sendBuffer];
        m_sendRequest := false;
        return true;
      }
      return false;
    }

    method OnSendDone()
      modifies this`m_sendDone
      ensures m_sendDone
    {
      m_sendDone := true;
    }

    /** One request, with the driver thread's part of it between the signal and the wait;
        WifiHandshake shows that no other schedule has another outcome. */
    method Send(buffer: seq<byte>)
      requires Quiet()
      modifies this
      ensures Quiet() && payloads == old(payloads) + [buffer]
    {
      m_sendBuffer := buffer;
      m_sendRequest := true;
      var sent := TrySendImpl();
      if sent {
        OnSendDone();
      }
      m_sendDone := false;
    }
  }

  /** Payloads were added behind the others, each a full buffer. */
  predicate OnlyFull(before: seq<seq<byte>>, after: seq<seq<byte>>) {
    before <= after && forall i :: |before| <= i < |after| ==> |after[i]| == 1400
  }

  class WifiChannel {
    const m_server: ServerSocket
    const m_writeBuffer: array<byte>
    var m_writeSize: nat

    ghost predicate Valid()
      reads this, m_server
    {
      && m_writeBuffer.Length == SOCKET_BUFFER_MAX_LENGTH && m_writeSize < SOCKET_BUFFER_MAX_LENGTH
      && m_server.Quiet()
    }

    /** Every byte accepted so far: handed to the socket or still in the buffer. */
    ghost function Stream(): seq<byte>
      reads this, m_server, m_writeBuffer
      requires m_writeSize <= m_writeBuffer.Length
    {
      Flatten(m_server.payloads) + m_writeBuffer[..m_writeSize]
    }

    constructor (server: ServerSocket)
      requires server.Quiet()
      ensures Valid() && m_server == server && m_writeSize == 0 && fresh(m_writeBuffer)
    {
      m_server, m_writeSize := server, 0;
      m_writeBuffer := new byte[SOCKET_BUFFER_MAX_LENGTH](_ => 0);
    }

    method Flush()
      requires m_writeBuffer.Length == SOCKET_BUFFER_MAX_LENGTH && m_writeSize <= SOCKET_BUFFER_MAX_LENGTH && m_server.Quiet()
      modifies this, m_server
      ensures Valid() && m_writeSize == 0
      ensures Stream() == old(Stream()) == Flatten(m_server.payloads)
      ensures old(m_writeSize) == 0 ==> m_server.payloads == old(m_server.payloads)
      ensures old(m_writeSize) > 0 ==> m_server.payloads == old(m_server.payloads) + [old(m_writeBuffer[..m_writeSize])]
    {
      if m_writeSize == 0 {
        return;
      }
      FlattenSnoc(m_server.payloads, m_writeBuffer[..m_writeSize]);
      m_server.Send(m_writeBuffer[..m_writeSize]);
      m_writeSize := 0;
    }

    /** Copies what fits; a full buffer is sent at once. */
    method WriteChunk(buffer: seq<byte>) returns (chunkSize: nat)
      requires Valid() && buffer != []
      modifies this, m_server, m_writeBuffer
      ensures Valid() && 0 < chunkSize <= |buffer|
      ensures Stream() == old(Stream()) + buffer[..chunkSize]
      ensures OnlyFull(old(m_server.payloads), m_server.payloads)
    {
      var available := SOCKET_BUFFER_MAX_LENGTH - m_writeSize;
      chunkSize := Min(|buffer|, available);
      forall i | 0 <= i < chunkSize {
        m_writeBuffer[m_writeSize + i] := buffer[i];
      }
      m_writeSize := m_writeSize + chunkSize;
      assert m_writeBuffer[..m_writeSize] == old(m_writeBuffer[..m_writeSize]) + buffer[..chunkSize];
      if m_writeSize == SOCKET_BUFFER_MAX_LENGTH {
        Flush();
      }
    }

    method Write(buffer: seq<byte>)
      requires Valid()
      modifies this, m_server, m_writeBuffer
      ensures Valid() && Stream() == old(Stream()) + buffer
      ensures OnlyFull(old(m_server.payloads), m_server.payloads)
    {
      var done := 0;
      while done < |buffer|
        invariant done <= |buffer| && Valid()
        invariant Stream() == old(Stream()) + buffer[..done]
        invariant OnlyFull(old(m_server.payloads), m_server.payloads)
      {
        var chunkSize := WriteChunk(buffer[done..]);
        assert buffer[..done] + buffer[done..][..chunkSize] == buffer[..done + chunkSize];
        done := done + chunkSize;
      }
      assert buffer[..done] == buffer;
    }
  }
}

/** The same handshake with both threads interleaved step by step. */
module WifiHandshake {
  import opened Util
  import opened Wifi

  datatype WriterPc = Filling | Prepared | Requested | Waiting
  datatype DriverPc = Looping | Sending

  datatype System = System(
    writer: WriterPc,
    driver: DriverPc,
    buffer: seq<byte>,               // the filled part of m_writeBuffer, which m_sendBuffer points to
    sendSize: nat,
    sendRequest: bool,
    sendDone: bool,
    outstanding: nat,                // sends the socket library has not reported complete
    payloads: seq<seq<byte>>,
    sends: nat,                      // history: calls of send()
    written: seq<byte>)              // history: bytes given to write()

  datatype Step =
    | Append(bytes: seq<byte>)
    | Prepare          // m_sendBuffer and m_sendSize
    | Request          // m_sendRequest = true
    | Signal           // isrSemaphore.signal
    | Resume           // m_sendDoneSemaphore.wait returns
    | DriverSend       // ::send
    | DriverClear      // m_sendRequest = false
    | DriverComplete   // SOCKET_MSG_SEND, delivered on the driver thread

  predicate Enabled(s: System, step: Step) {
    match step
    case Append(bytes) => s.writer == Filling && |s.buffer| + |bytes| <= SOCKET_BUFFER_MAX_LENGTH
    case Prepare => s.writer == Filling && s.buffer != []
    case Request => s.writer == Prepared
    case Signal => s.writer == Requested
    case Resume => s.writer == Waiting && s.sendDone
    case DriverSend => s.driver == Looping && s.sendRequest
    case DriverClear => s.driver == Sending
    case DriverComplete => s.driver == Looping && 0 < s.outstanding
  }

  function Apply(s: System, step: Step): System
    requires Enabled(s, step)
  {
    match step
    case Append(bytes) => s.(buffer := s.buffer + bytes, written := s.written + bytes)
    case Prepare => s.(writer := Prepared, sendSize := |s.buffer|, sends := s.sends + 1)
    case Request => s.(writer := Requested, sendRequest := true)
    case Signal => s.(writer := Waiting)
    case Resume => s.(writer := Filling, sendDone := false, buffer := [])
    case DriverSend =>
      s.(driver := Sending, payloads := s.payloads + [s.buffer[..Min(s.sendSize, |s.buffer|)]], outstanding := s.outstanding + 1)
    case DriverClear => s.(driver := Looping, sendRequest := false)
    case DriverComplete => s.(outstanding := s.outstanding - 1, sendDone := true)
  }

  /** How far the current request has come. */
  predicate NoRequest(s: System) {
    s.driver == Looping && !s.sendRequest && !s.sendDone && s.outstanding == 0
  }

  predicate NotTaken(s: System) {
    s.driver == Looping && s.sendRequest && !s.sendDone && s.outstanding == 0
  }

  predicate Taken(s: System) {
    || (s.driver == Sending && s.sendRequest && !s.sendDone && s.outstanding == 1)
    || (s.driver == Looping && !s.sendRequest && !s.sendDone && s.outstanding == 1)
    || (s.driver == Looping && !s.sendRequest && s.sendDone && s.outstanding == 0)
  }

  ghost predicate Inv(s: System) {
    && (s.writer.Filling? ==> NoRequest(s))
    && (s.writer.Prepared? ==> NoRequest(s))
    && (s.writer.Requested? || s.writer.Waiting? ==> NotTaken(s) || Taken(s))
    && (!s.writer.Filling? ==> s.sendSize == |s.buffer|)
    && Flatten(s.payloads) + (if Taken(s) then [] else s.buffer) == s.written
    && s.sends == |s.payloads| + (if s.writer.Filling? || Taken(s) then 0 else 1)
  }

  ghost predicate Init(s: System) {
    s == System(Filling, Looping, [], 0, false, false, 0, [], 0, [])
  }

  lemma {:induction false} StepInv(s: System, step: Step)
    requires Inv(s) && Enabled(s, step)
    ensures Inv(Apply(s, step))
    ensures !step.Append? && !step.Resume? ==> Apply(s, step).buffer == s.buffer
    ensures s.payloads <= Apply(s, step).payloads
  {
    if step.DriverSend? {
      assert s.buffer[..Min(s.sendSize, |s.buffer|)] == s.buffer;
      FlattenSnoc(s.payloads, s.buffer);
    } else if step.Append? {
      assert Flatten(s.payloads) + (s.buffer + step.bytes) == s.written + step.bytes;
    }
  }

  ghost predicate IsRun(states: seq<System>, steps: seq<Step>) {
    && |states| == |steps| + 1 && Init(states[0])
    && forall i :: 0 <= i < |steps| ==> Enabled(states[i], steps[i]) && states[i + 1] == Apply(states[i], steps[i])
  }

  /** Under every schedule the socket gets a prefix of what was written, all of it whenever the
      writer is done with a flush, one payload for every call of send(). */
  lemma {:induction false} EverySchedule(states: seq<System>, steps: seq<Step>, n: nat)
    requires IsRun(states, steps) && n < |states|
    ensures Inv(states[n])
    ensures Flatten(states[n].payloads) <= states[n].written
    ensures states[n].writer == Filling ==> |states[n].payloads| == states[n].sends
    ensures states[n].writer == Filling && states[n].buffer == [] ==> Flatten(states[n].payloads) == states[n].written
  {
    if n > 0 {
      EverySchedule(states, steps, n - 1);
      StepInv(states[n - 1], steps[n - 1]);
    }
  }

  /** How many more steps the request of a waiting writer can take, its own wake-up included. */
  function StepsLeft(s: System): nat {
    if s.sendDone then 1
    else if s.driver == Sending then 3
    else if s.sendRequest then 4
    else 2
  }

  /** From the request until the writer resumes nobody changes the bytes being sent, and a writer that
      waits is woken: a step is always possible, and every step but its wake-up brings it one closer. */
  lemma {:induction false} WaitingEnds(states: seq<System>, steps: seq<Step>, n: nat)
    requires IsRun(states, steps) && n < |states| && states[n].writer == Waiting
    ensures var s := states[n];
            Enabled(s, DriverSend) || Enabled(s, DriverClear) || Enabled(s, DriverComplete) || Enabled(s, Resume)
    ensures StepsLeft(states[n]) == 1 ==> Enabled(states[n], Resume)
    ensures n < |steps| && !steps[n].Resume? ==>
              && states[n + 1].buffer == states[n].buffer && states[n + 1].writer == Waiting
              && StepsLeft(states[n + 1]) == StepsLeft(states[n]) - 1
  {
    EverySchedule(states, steps, n);
    if n < |steps| {
      StepInv(states[n], steps[n]);
    }
  }

  /** So four steps after it began to wait, at the latest, the writer has gone on. */
  lemma {:induction false} WokenWithinFour(states: seq<System>, steps: seq<Step>, n: nat, m: nat)
    requires IsRun(states, steps) && n <= m < |states| && states[n].writer == Waiting
    requires forall i :: n <= i < m ==> !steps[i].Resume?
    ensures states[m].writer == Waiting && states[m].buffer == states[n].buffer
    ensures StepsLeft(states[m]) == StepsLeft(states[n]) - (m - n) && m - n < 4
    decreases m - n
  {
    if n < m {
      WaitingEnds(states, steps, n);
      WokenWithinFour(states, steps, n + 1, m);
    }
  }
}
