/** The text buffers of loggingcentral.cpp: line buffers filled by the printing threads, and the
    null-terminated output buffers the lines are collected in. */
module LogBuffers {
  import opened Util

  const LINE_SIZE := 256
  const LOG_DELIMITER := '`'

  /** Length of the null-terminated string at the start of `s`. */
  function Strlen(s: seq<char>): (n: nat)
    requires '\0' in s
    ensures n < |s| && s[n] == '\0' && '\0' !in s[..n] && CString(s) == s[..n]
  {
    CStringIs(s);
    |CString(s)|
  }

  function Truncate<T>(s: seq<T>, capacity: nat): seq<T> {
    s[..Min(|s|, capacity)]
  }

  /** Truncating as the lines come in is the same as truncating everything at once. */
  lemma {:induction false} TruncateTwice<T>(a: seq<T>, b: seq<T>, capacity: nat)
    ensures Truncate(Truncate(a, capacity) + b, capacity) == Truncate(a + b, capacity)
  {
  }

  class LogBuffer {
    const m_buffer: array<char>
    var m_writePtr: nat

    ghost predicate Valid()
      reads this, m_buffer
    {
      m_writePtr < m_buffer.Length && m_buffer[m_writePtr] == '\0' && '\0' !in m_buffer[..m_writePtr]
    }

    ghost function Contents(): seq<char>
      reads this, m_buffer
      requires Valid()
    {
      m_buffer[..m_writePtr]
    }

    ghost function Capacity(): nat
      requires m_buffer.Length > 0
    {
      m_buffer.Length - 1
    }

    constructor (size: nat)
      requires 0 < size
      ensures Valid() && Contents() == [] && m_buffer.Length == size && fresh(m_buffer)
    {
      m_buffer := new char[size](_ => '\0');
      m_writePtr := 0;
    }

    /** length() is what strlen would compute. */
    method Length() returns (n: nat)
      requires Valid()
      ensures '\0' in m_buffer[..] && n == Strlen(m_buffer[..]) == |Contents()|
    {
      assert m_buffer[..][..m_writePtr] == m_buffer[..m_writePtr];
      CStringUnique(m_buffer[..], m_writePtr);
      return m_writePtr;
    }

    method Reset()
      requires 0 < m_buffer.Length
      modifies this, m_buffer
      ensures Valid() && Contents() == []
    {
      m_writePtr := 0;
      m_buffer[m_writePtr] := '\0';
    }

    method WriteInternal(buffer: seq<char>)
      requires Valid() && '\0' in buffer
      modifies this, m_buffer
      ensures Valid() && Contents() == Truncate(old(Contents()) + CString(buffer), Capacity())
      ensures var all := old(Contents()) + CString(buffer); Contents() == all[..Min(|all|, m_buffer.Length - 1)]
      ensures m_buffer[m_writePtr + 1..] == old(m_buffer[..])[m_writePtr + 1..]
    {
      var len := Strlen(buffer);
      var available := m_buffer.Length - m_writePtr - 1;
      len := Min(available, len);
      m_buffer[m_writePtr + len] := '\0';
      forall i | 0 <= i < len {
        m_buffer[m_writePtr + i] := buffer[i];
      }
      assert m_buffer[..m_writePtr + len] == old(Contents()) + buffer[..len];
      assert buffer[..len] == CString(buffer)[..len];
      m_writePtr := m_writePtr + len;
    }
  }

  /** The two output buffers and who uses which. */
  class OutputBuffers {
    var writeBuffer: LogBuffer
    var readBuffer: LogBuffer

    ghost predicate Valid()
      reads this, writeBuffer, writeBuffer.m_buffer, readBuffer, readBuffer.m_buffer
    {
      && writeBuffer != readBuffer && writeBuffer.m_buffer != readBuffer.m_buffer
      && writeBuffer.Valid() && readBuffer.Valid()
    }

    constructor (size: nat)
      requires 0 < size
      ensures Valid() && fresh(writeBuffer) && fresh(readBuffer) && fresh(writeBuffer.m_buffer) && fresh(readBuffer.m_buffer)
      ensures writeBuffer.Contents() == [] && readBuffer.Contents() == []
    {
      writeBuffer := new LogBuffer(size);
      readBuffer := new LogBuffer(size);
    }

    /** Hands the collected text to the reader; the size check inside can never fail. */
    method SwapOutputBuffers() returns (buffer: LogBuffer, actualOutputBufferSize: nat, sizeError: bool)
      requires Valid()
      modifies this, readBuffer, readBuffer.m_buffer
      ensures Valid() && writeBuffer == old(readBuffer) && buffer == readBuffer == old(writeBuffer)
      ensures !sizeError && actualOutputBufferSize == |buffer.Contents()|
      ensures buffer.Contents() == old(writeBuffer.Contents()) && writeBuffer.Contents() == []
    {
      writeBuffer, readBuffer := readBuffer, writeBuffer;
      writeBuffer.Reset();
      actualOutputBufferSize := readBuffer.Length();
      var expectedOutputSize := Strlen(readBuffer.m_buffer[..]);
      sizeError := actualOutputBufferSize != expectedOutputSize;
      buffer := readBuffer;
    }
  }

  // ---------- one line ----------

  predicate IsPrint(c: char) {
    ' ' <= c <= '~'
  }

  function Sanitize(text: seq<char>): (r: seq<char>)
    ensures |r| == |text| && '\0' !in r
    ensures forall i :: 0 <= i < |r| ==> r[i] == if ' ' <= text[i] <= '~' then text[i] else ' '
  {
    seq(|text|, i requires 0 <= i < |text| => if IsPrint(text[i]) then text[i] else ' ')
  }

  /** What efiPrintfInternal leaves in its line buffer for a message that formats to `text`. The
      buffer is a terminated string exactly when the message has fewer than 255 characters. */
  method FormatLine(buffer: array<char>, text: seq<char>)
    requires buffer.Length == LINE_SIZE
    modifies buffer
    ensures '\0' in buffer[..] <==> |text| < 255
    ensures |text| < 255 ==> CString(buffer[..]) == Sanitize(text)
  {
    // chvsnprintf
    var n := Min(|text|, LINE_SIZE - 1);
    forall i | 0 <= i < n {
      buffer[i] := text[i];
    }
    buffer[n] := '\0';
    var len := |text|;
    buffer[LINE_SIZE - 1] := LOG_DELIMITER;
    if len > LINE_SIZE - 1 {
      len := LINE_SIZE - 1;
    }
    for i := 0 to len
      invariant forall j :: 0 <= j < i ==> buffer[j] == Sanitize(text)[j]
      invariant forall j :: i <= j < len ==> buffer[j] == text[j]
      invariant n < LINE_SIZE - 1 ==> buffer[n] == '\0'
      invariant buffer[LINE_SIZE - 1] == LOG_DELIMITER
    {
      if !IsPrint(buffer[i]) {
        buffer[i] := ' ';
      }
    }
    if n < LINE_SIZE - 1 {
      assert buffer[..][..n] == Sanitize(text);
      CStringUnique(buffer[..], n);
    }
  }
}
