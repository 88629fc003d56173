/** The serial monitor of AR488Monitor.py: every write clears the response
    buffer and puts the framed command on the wire, a background reader
    appends whatever the adapter sends back, and `get_buffer` hands out the
    buffer stripped of surrounding white space. The reader thread is modelled
    by `Receive(data)`: one decoded chunk handed to the object, which takes it
    only while the reader has not been told to stop. */
module Monitor {
  import opened PyStr
  import opened Framing

  /** Everything a sequence of chunks puts in the buffer, in order. */
  function Concat(chunks: seq<string>): string
  {
    if chunks == [] then "" else Concat(chunks[..|chunks| - 1]) + chunks[|chunks| - 1]
  }

  class Ar488Monitor {
    const appendCr: bool
    const appendLf: bool
    var buffer: string
    var stopReader: bool
    var portOpen: bool
    /** The commands written so far, one entry per `write`, before framing. */
    var sent: seq<string>

    /** What those writes put on the serial port. */
    function Wire(): seq<string>
      reads this
    {
      FramedAll(sent, appendCr, appendLf)
    }

    /** A freshly connected monitor: port open, reader running, nothing buffered. */
    constructor (appendCr: bool, appendLf: bool)
      ensures this.appendCr == appendCr && this.appendLf == appendLf
      ensures buffer == "" && !stopReader && portOpen && sent == []
    {
      this.appendCr := appendCr;
      this.appendLf := appendLf;
      buffer := "";
      stopReader := false;
      portOpen := true;
      sent := [];
    }

    /** The reader thread delivers one chunk; once stopped it takes no more. */
    method Receive(data: string)
      modifies this
      ensures buffer == if old(stopReader) then old(buffer) else old(buffer) + data
      ensures sent == old(sent) && stopReader == old(stopReader) && portOpen == old(portOpen)
    {
      if !stopReader {
        buffer := buffer + data;
      }
    }

    /** `write`: the previous response is forgotten, then the command goes
        out, framed as `Wire` says. */
    method Write(command: string)
      modifies this
      ensures buffer == ""
      ensures sent == old(sent) + [command]
      ensures stopReader == old(stopReader) && portOpen == old(portOpen)
    {
      buffer := "";
      sent := sent + [command];
    }

    /** `get_buffer`: the response since the last write, without surrounding
        white space; the buffer itself is left as it is. */
    method GetBuffer() returns (response: string)
      ensures response == Strip(buffer)
      ensures NoSpaceAtEnds(response)
    {
      response := Strip(buffer);
    }

    /** `close`: the reader is told to stop and an open port is closed. */
    method Close()
      modifies this
      ensures stopReader && !portOpen
      ensures buffer == old(buffer) && sent == old(sent)
    {
      stopReader := true;
      if portOpen {
        portOpen := false;
      }
    }
  }

  /** A command written to a running monitor, the chunks the reader then
      delivers, and the buffer read back: the response is exactly what arrived
      after the write, stripped, whatever was buffered before. */
  method ResponseSinceWrite(m: Ar488Monitor, command: string, chunks: seq<string>)
    returns (response: string)
    requires !m.stopReader
    modifies m
    ensures response == Strip(Concat(chunks))
    ensures m.sent == old(m.sent) + [command]
  {
    m.Write(command);
    var i := 0;
    while i < |chunks|
      invariant 0 <= i <= |chunks|
      invariant !m.stopReader
      invariant m.buffer == Concat(chunks[..i])
      invariant m.sent == old(m.sent) + [command]
    {
      m.Receive(chunks[i]);
      assert chunks[..i + 1][..i] == chunks[..i];
      i := i + 1;
    }
    assert chunks[..i] == chunks;
    response := m.GetBuffer();
  }

  /** After `close` nothing more reaches the buffer. */
  method ClosedMonitorIgnoresInput(m: Ar488Monitor, chunks: seq<string>)
    modifies m
    ensures m.stopReader
    ensures m.buffer == old(m.buffer)
  {
    m.Close();
    var i := 0;
    while i < |chunks|
      invariant 0 <= i <= |chunks|
      invariant m.stopReader && m.buffer == old(m.buffer)
    {
      m.Receive(chunks[i]);
      i := i + 1;
    }
  }
}
