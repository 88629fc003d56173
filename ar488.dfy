/** The AR488 adapter driver of ar488_interface.py. Unlike the monitor, `send`
    leaves the response buffer alone; it is `read` that hands out the buffer
    (stripped) and empties it, and `flush` that discards it. The reader thread
    is `Receive(data)`, and the chunk that reaches the buffer while `read`
    waits is the `arrived` parameter of every reading operation. */
module Ar488Interface {
  import opened PyStr
  import opened Framing
  import opened Instrument
  import opened Seqs
  import Monitor

  // ---------------------------------------------------------------------------
  // Finding the listener addresses in a `++fndl` reply: `re.findall(r'\b\d+\b', …)`

  /** A character of `\w`: a letter, a digit or '_'. */
  predicate IsWordChar(c: char) {
    IsDigit(c) || ('a' <= c <= 'z') || ('A' <= c <= 'Z') || c == '_'
  }

  /** The length of the run of digits `s` starts with. */
  function DigitRun(s: string): (n: nat)
    ensures n <= |s|
    ensures forall k :: 0 <= k < n ==> IsDigit(s[k])
    ensures n < |s| ==> !IsDigit(s[n])
    decreases |s|
  {
    if s == [] || !IsDigit(s[0]) then 0 else 1 + DigitRun(s[1..])
  }

  /** The digit runs of `s` with a word boundary on both sides, left to right;
      `afterWord` says whether the character before `s` is a word character.
      A run that starts at a boundary but is followed by a letter or '_' is no
      match, and scanning resumes one character later, as the regular
      expression engine does. */
  function StandaloneNumbers(s: string, afterWord: bool): (r: seq<string>)
    ensures forall k :: 0 <= k < |r| ==> IsDigits(r[k])
    ensures |r| <= |s|
    decreases |s|
  {
    if s == [] then []
    else if IsDigit(s[0]) && !afterWord then
      var n := DigitRun(s);
      if n == |s| || !IsWordChar(s[n]) then [s[..n]] + StandaloneNumbers(s[n..], true)
      else StandaloneNumbers(s[1..], true)
    else StandaloneNumbers(s[1..], IsWordChar(s[0]))
  }

  /** `list(map(int, re.findall(r'\b\d+\b', response)))`. */
  function FindAddresses(response: string): (addresses: seq<nat>)
    ensures |addresses| <= |response|
  {
    var found := StandaloneNumbers(response, false);
    seq(|found|, k requires 0 <= k < |found| => ParseNat(found[k]))
  }

  /** The decimal forms of a list of addresses. */
  function Decimals(addresses: seq<nat>): (r: seq<string>)
    ensures |r| == |addresses|
    ensures forall k :: 0 <= k < |r| ==> r[k] == NatToString(addresses[k])
  {
    seq(|addresses|, k requires 0 <= k < |addresses| => NatToString(addresses[k]))
  }

  /** A digit run is measured up to the first character that is not a digit. */
  lemma {:induction false} DigitRunOf(d: string, rest: string)
    requires IsDigits(d)
    requires rest == [] || !IsDigit(rest[0])
    ensures DigitRun(d + rest) == |d|
    decreases |d|
  {
    var s := d + rest;
    assert s[0] == d[0] && IsDigit(s[0]);
    if |d| == 1 {
      assert s[1..] == rest;
    } else {
      assert s[1..] == d[1..] + rest;
      DigitRunOf(d[1..], rest);
    }
  }

  /** Digit strings separated by a non-word character are found again, each
      one whole and in order. */
  lemma {:induction false} StandaloneNumbersOfJoin(xs: seq<string>, sep: char)
    requires forall k :: 0 <= k < |xs| ==> IsDigits(xs[k])
    requires !IsWordChar(sep)
    ensures StandaloneNumbers(Join(xs, sep), false) == xs
    decreases |xs|
  {
    if |xs| == 1 {
      DigitRunOf(xs[0], []);
      assert xs[0] + [] == xs[0];
      assert xs[0][|xs[0]|..] == [];
    } else if |xs| > 1 {
      var d := xs[0];
      var tail := Join(xs[1..], sep);
      var s := Join(xs, sep);
      assert s == d + ([sep] + tail);
      DigitRunOf(d, [sep] + tail);
      assert s[..|d|] == d;
      assert s[|d|..] == [sep] + tail;
      assert ([sep] + tail)[1..] == tail;
      StandaloneNumbersOfJoin(xs[1..], sep);
      assert xs == [d] + xs[1..];
    }
  }

  /** A `++fndl` reply listing addresses separated by spaces, commas, line
      breaks or any other non-word character yields exactly those addresses. */
  lemma FindAddressesOfListing(addresses: seq<nat>, sep: char)
    requires !IsWordChar(sep)
    ensures FindAddresses(Join(Decimals(addresses), sep)) == addresses
  {
    var ds := Decimals(addresses);
    StandaloneNumbersOfJoin(ds, sep);
    forall k | 0 <= k < |addresses|
      ensures ParseNat(ds[k]) == addresses[k]
    {
      ParseNatToString(addresses[k]);
    }
  }

  /** A number glued to a word, as in "addr12", is not an address. */
  lemma GluedNumberIsNoAddress()
    ensures FindAddresses("ch12 7") == [7]
  {
    var s := "ch12 7";
    assert StandaloneNumbers(s[4..], true) == StandaloneNumbers(s[5..], false);
    assert DigitRun(s[5..]) == 1;
    assert s[5..][..1] == "7" && s[5..][1..] == [];
    assert StandaloneNumbers(s[5..], false) == ["7"];
    assert StandaloneNumbers(s[3..], true) == StandaloneNumbers(s[4..], true);
    assert StandaloneNumbers(s[2..], true) == StandaloneNumbers(s[3..], true);
    assert StandaloneNumbers(s[1..], true) == StandaloneNumbers(s[2..], true);
    assert StandaloneNumbers(s, false) == StandaloneNumbers(s[1..], true);
  }

  // ---------------------------------------------------------------------------
  // The adapter

  /** The buffer after a read has waited: the chunk that arrived joins it only
      while the reader thread is still running. */
  function Waited(buffer: string, stopThread: bool, arrived: string): (r: string)
    ensures stopThread ==> r == buffer
    ensures !stopThread ==> r == buffer + arrived
  {
    if stopThread then buffer else buffer + arrived
  }

  /** The `++addr` command `set_address` sends. */
  function AddressCommand(addr: int): (cmd: string)
    ensures StartsWith(cmd, "++addr ")
    ensures cmd[7..] == IntToString(addr)
  {
    "++addr " + IntToString(addr)
  }

  /** A listener's address can be read back from the command that selects it. */
  lemma AddressCommandRoundTrip(addr: nat)
    ensures ParseNat(AddressCommand(addr)[7..]) == addr
  {
    ParseNatToString(addr);
  }

  /** Different addresses, negative ones included, give different commands. */
  lemma AddressCommandInjective(a: int, b: int)
    requires AddressCommand(a) == AddressCommand(b)
    ensures a == b
  {
    var s, t := IntToString(a), IntToString(b);
    assert s == t;
    if 0 <= a && 0 <= b {
      NatToStringInjective(a, b);
    } else if a < 0 && b < 0 {
      assert s[1..] == NatToString(-a) && t[1..] == NatToString(-b);
      NatToStringInjective(-a, -b);
    }
  }

  /** The commands `identify` sends. */
  function IdentifyCommands(addr: Option<int>): seq<string> {
    match addr
    case None => ["*IDN?", "++read"]
    case Some(a) => [AddressCommand(a), "*IDN?", "++read"]
  }

  class Ar488 {
    const appendCr: bool
    const appendLf: bool
    var buffer: string
    var stopThread: bool
    var portOpen: bool
    /** The commands sent so far, in order. */
    var sent: seq<string>

    /** What has gone out on the serial line: each command with its terminators. */
    function Wire(): seq<string>
      reads this
    {
      FramedAll(sent, appendCr, appendLf)
    }

    /** A freshly opened adapter: port open, reader running, nothing buffered. */
    constructor (appendCr: bool, appendLf: bool)
      ensures this.appendCr == appendCr && this.appendLf == appendLf
      ensures buffer == "" && !stopThread && portOpen && sent == []
    {
      this.appendCr := appendCr;
      this.appendLf := appendLf;
      buffer := "";
      stopThread := false;
      portOpen := true;
      sent := [];
    }

    /** The reader thread delivers one chunk; once stopped it takes no more. */
    method Receive(data: string)
      modifies this
      ensures buffer == Waited(old(buffer), old(stopThread), data)
      ensures sent == old(sent) && stopThread == old(stopThread) && portOpen == old(portOpen)
    {
      if !stopThread {
        buffer := buffer + data;
      }
    }

    /** `close`: the reader is told to stop and an open port is closed. */
    method Close()
      modifies this
      ensures stopThread && !portOpen
      ensures buffer == old(buffer) && sent == old(sent)
    {
      stopThread := true;
      if portOpen {
        portOpen := false;
      }
    }

    /** `flush`: whatever was received and not yet read is discarded. */
    method Flush()
      modifies this
      ensures buffer == ""
      ensures sent == old(sent) && stopThread == old(stopThread) && portOpen == old(portOpen)
    {
      buffer := "";
    }

    /** `send`: the command goes out with its terminators; the buffer is left alone. */
    method Send(command: string)
      modifies this
      ensures sent == old(sent) + [command]
      ensures buffer == old(buffer) && stopThread == old(stopThread) && portOpen == old(portOpen)
    {
      sent := sent + [command];
    }

    /** `read`: everything received since the last read or flush, stripped;
        the buffer is emptied, so no reply is handed out twice. */
    method Read(arrived: string) returns (result: string)
      modifies this
      ensures result == Strip(Waited(old(buffer), old(stopThread), arrived))
      ensures NoSpaceAtEnds(result)
      ensures buffer == ""
      ensures sent == old(sent) && stopThread == old(stopThread) && portOpen == old(portOpen)
    {
      Receive(arrived);
      result := Strip(buffer);
      buffer := "";
    }

    /** `send_and_read`. */
    method SendAndRead(command: string, arrived: string) returns (result: string)
      modifies this
      ensures sent == old(sent) + [command]
      ensures result == Strip(Waited(old(buffer), old(stopThread), arrived))
      ensures buffer == ""
      ensures stopThread == old(stopThread) && portOpen == old(portOpen)
    {
      Send(command);
      result := Read(arrived);
    }

    /** `set_address`. */
    method SetAddress(addr: int)
      modifies this
      ensures sent == old(sent) + [AddressCommand(addr)]
      ensures buffer == old(buffer) && stopThread == old(stopThread) && portOpen == old(portOpen)
    {
      Send("++addr " + IntToString(addr));
    }

    /** `identify`: addresses the device when an address is given (0 included),
        asks for its identification and reads the answer. */
    method Identify(addr: Option<int>, arrived: string) returns (idn: string)
      modifies this
      ensures sent == old(sent) + IdentifyCommands(addr)
      ensures idn == Strip(Waited(old(buffer), old(stopThread), arrived))
      ensures buffer == ""
      ensures stopThread == old(stopThread) && portOpen == old(portOpen)
    {
      if addr.Some? {
        SetAddress(addr.value);
      }
      Send("*IDN?");
      idn := SendAndRead("++read", arrived);
    }
  }

  /** A flush, the chunks the reader then delivers, and a read: the answer is
      exactly what arrived after the flush, stripped, whatever was buffered
      before it. */
  method ResponseSinceFlush(gpib: Ar488, chunks: seq<string>) returns (response: string)
    requires !gpib.stopThread
    modifies gpib
    ensures response == Strip(Monitor.Concat(chunks))
    ensures gpib.buffer == "" && gpib.sent == old(gpib.sent)
  {
    gpib.Flush();
    var i := 0;
    while i < |chunks|
      invariant 0 <= i <= |chunks|
      invariant !gpib.stopThread
      invariant gpib.buffer == Monitor.Concat(chunks[..i])
      invariant gpib.sent == old(gpib.sent)
    {
      gpib.Receive(chunks[i]);
      assert chunks[..i + 1][..i] == chunks[..i];
      i := i + 1;
    }
    assert chunks[..i] == chunks;
    assert gpib.buffer + "" == gpib.buffer;
    response := gpib.Read("");
  }

  /** After `close` nothing more reaches the buffer: a later read hands back
      only what was buffered before, however many chunks come in. */
  method ClosedAdapterIgnoresInput(gpib: Ar488, chunks: seq<string>, arrived: string)
    returns (response: string)
    modifies gpib
    ensures response == Strip(old(gpib.buffer))
    ensures gpib.stopThread && gpib.buffer == ""
  {
    gpib.Close();
    var i := 0;
    while i < |chunks|
      invariant 0 <= i <= |chunks|
      invariant gpib.stopThread && gpib.buffer == old(gpib.buffer)
    {
      gpib.Receive(chunks[i]);
      i := i + 1;
    }
    response := gpib.Read(arrived);
  }

  // ---------------------------------------------------------------------------
  // list_gpib_devices

  /** One entry of the list `list_gpib_devices` returns. */
  datatype Device = Device(gpibAddress: nat, idn: string)

  /** The commands sent before the listener search. */
  const SetupCommands: seq<string> := ["++eoi 1", "++mode 1", "++fndl"]

  /** What is recorded for a listener that said nothing. */
  const NoResponse: string := "No response"

  /** The identification recorded for a device: its answer stripped, or the
      marker NoResponse when it said nothing. */
  function IdnOrMarker(answer: string): (idn: string)
    ensures idn != ""
    ensures Strip(answer) != "" ==> idn == Strip(answer)
    ensures Strip(answer) == "" ==> idn == NoResponse
  {
    var s := Strip(answer);
    if s == "" then NoResponse else s
  }

  /** The commands sent to one listener: address it, ask for its
      identification, make it talk. */
  function ListenerQuery(addr: nat): (cmds: seq<string>)
    ensures |cmds| == 3
  {
    [AddressCommand(addr), "*IDN?", "++read"]
  }

  /** The commands sent to query each listener: address it, ask for its
      identification, make it talk. */
  function QueryCommands(addresses: seq<nat>): (cmds: seq<string>)
    ensures |cmds| == 3 * |addresses|
  {
    if addresses == [] then []
    else
      var last := addresses[|addresses| - 1];
      QueryCommands(addresses[..|addresses| - 1]) + ListenerQuery(last)
  }

  /** The addresses found in the reply to `++fndl` that arrives after a flush. */
  function Listeners(fndlReply: string, stopThread: bool): seq<nat> {
    FindAddresses(Strip(Waited("", stopThread, fndlReply)))
  }

  /** The identification recorded for the answer a listener gives while it is
      read, after the adapter had been flushed. */
  function Identification(answer: string, stopThread: bool): string {
    IdnOrMarker(Waited("", stopThread, answer))
  }

  /** The list built from the listeners and the answer read after querying each. */
  function DeviceRecords(addresses: seq<nat>, answers: seq<string>, stopThread: bool): (devices: seq<Device>)
    ensures |devices| == |addresses|
  {
    if addresses == [] then []
    else
      var n := |addresses| - 1;
      DeviceRecords(addresses[..n], answers, stopThread)
        + [Device(addresses[n], Identification(ReplyAt(answers, n), stopThread))]
  }

  /** The body of the query loop of `list_gpib_devices`: address one listener,
      ask for its identification, make it talk and read what it said. */
  method QueryListener(gpib: Ar488, addr: nat, answer: string) returns (device: Device)
    requires gpib.buffer == ""
    modifies gpib
    ensures device == Device(addr, Identification(answer, old(gpib.stopThread)))
    ensures gpib.sent == old(gpib.sent) + ListenerQuery(addr)
    ensures gpib.buffer == "" && gpib.stopThread == old(gpib.stopThread) && gpib.portOpen == old(gpib.portOpen)
  {
    gpib.SetAddress(addr);
    gpib.Send("*IDN?");
    gpib.Send("++read");
    AppendThree(old(gpib.sent), AddressCommand(addr), "*IDN?", "++read");
    var idn := ReadIdentification(gpib, answer);
    device := Device(addr, idn);
  }

  /** The read at the end of the query loop of `list_gpib_devices`: the
      answer stripped once more, or the marker when it is empty
      (`idn or 'No response'`). */
  method ReadIdentification(gpib: Ar488, answer: string) returns (idn: string)
    requires gpib.buffer == ""
    modifies gpib
    ensures idn == Identification(answer, old(gpib.stopThread))
    ensures gpib.sent == old(gpib.sent)
    ensures gpib.buffer == "" && gpib.stopThread == old(gpib.stopThread) && gpib.portOpen == old(gpib.portOpen)
  {
    ghost var heard := Waited("", gpib.stopThread, answer);
    var response := gpib.Read(answer);
    idn := IdnOrMarker(response);
    RecordedIdn(heard);
  }

  /** The query loop of `list_gpib_devices`, over the addresses found. */
  method QueryListeners(gpib: Ar488, addresses: seq<nat>, answers: seq<string>)
    returns (devices: seq<Device>)
    requires gpib.buffer == ""
    modifies gpib
    ensures devices == DeviceRecords(addresses, answers, old(gpib.stopThread))
    ensures gpib.sent == old(gpib.sent) + QueryCommands(addresses)
    ensures gpib.buffer == "" && gpib.stopThread == old(gpib.stopThread) && gpib.portOpen == old(gpib.portOpen)
  {
    ghost var stop := gpib.stopThread;
    devices := [];
    for i := 0 to |addresses|
      invariant gpib.stopThread == stop && gpib.portOpen == old(gpib.portOpen) && gpib.buffer == ""
      invariant devices == DeviceRecords(addresses[..i], answers, stop)
      invariant gpib.sent == old(gpib.sent) + QueryCommands(addresses[..i])
    {
      ghost var prev := QueryCommands(addresses[..i]);
      ghost var step := ListenerQuery(addresses[i]);
      var device := QueryListener(gpib, addresses[i], ReplyAt(answers, i));
      DeviceRecordsSnoc(addresses, answers, stop, i);
      Reassociate(old(gpib.sent), prev, step);
      devices := devices + [device];
    }
    assert addresses[..|addresses|] == addresses;
  }

  /** `list_gpib_devices`: searches for listeners, queries each address it
      finds in order, records an identification for every one of them and
      closes the adapter. `fndlReply` is what arrives after `++fndl`, and
      `answers[k]` what arrives while the k-th listener is read. */
  method ListGpibDevices(gpib: Ar488, fndlReply: string, answers: seq<string>)
    returns (devices: seq<Device>)
    modifies gpib
    ensures devices == DeviceRecords(Listeners(fndlReply, old(gpib.stopThread)), answers, old(gpib.stopThread))
    ensures gpib.sent == old(gpib.sent) + SetupCommands + QueryCommands(Listeners(fndlReply, old(gpib.stopThread)))
    ensures gpib.stopThread && !gpib.portOpen && gpib.buffer == ""
  {
    gpib.Flush();
    gpib.Send("++eoi 1");
    gpib.Send("++mode 1");
    gpib.Send("++fndl");
    AppendThree(old(gpib.sent), "++eoi 1", "++mode 1", "++fndl");
    var response := gpib.Read(fndlReply);
    var addresses := FindAddresses(response);
    devices := QueryListeners(gpib, addresses, answers);
    gpib.Close();
  }

  lemma DeviceRecordsSnoc(addresses: seq<nat>, answers: seq<string>, stopThread: bool, i: nat)
    requires i < |addresses|
    ensures DeviceRecords(addresses[..i + 1], answers, stopThread)
      == DeviceRecords(addresses[..i], answers, stopThread)
        + [Device(addresses[i], Identification(ReplyAt(answers, i), stopThread))]
    ensures QueryCommands(addresses[..i + 1])
      == QueryCommands(addresses[..i]) + ListenerQuery(addresses[i])
  {
    assert addresses[..i + 1][..i] == addresses[..i];
  }

  /** The three commands for the k-th listener sit at positions 3k to 3k+2:
      every listener is addressed, asked and read, in the order found. */
  lemma {:induction false} QueryCommandsAt(addresses: seq<nat>, k: nat)
    requires k < |addresses|
    ensures 3 * k + 3 <= |QueryCommands(addresses)|
    ensures QueryCommands(addresses)[3 * k..3 * k + 3] == ListenerQuery(addresses[k])
    decreases |addresses|
  {
    var n := |addresses| - 1;
    var init := addresses[..n];
    var q := QueryCommands(init);
    var t := ListenerQuery(addresses[n]);
    assert QueryCommands(addresses) == q + t;
    if k < n {
      assert q[3 * k..3 * k + 3] == ListenerQuery(addresses[k]) by {
        QueryCommandsAt(init, k);
        assert init[k] == addresses[k];
      }
      SliceOfFront(q, t, 3 * k, 3 * k + 3);
    } else {
      assert |q| == 3 * k;
      SliceOfBack(q, t);
    }
  }

  /** The k-th record holds the k-th address and the identification read from
      the k-th answer. */
  lemma {:induction false} DeviceRecordAt(addresses: seq<nat>, answers: seq<string>, stopThread: bool, k: nat)
    requires k < |addresses|
    ensures DeviceRecords(addresses, answers, stopThread)[k]
      == Device(addresses[k], Identification(ReplyAt(answers, k), stopThread))
    decreases |addresses|
  {
    var n := |addresses| - 1;
    var last := Device(addresses[n], Identification(ReplyAt(answers, n), stopThread));
    var init := DeviceRecords(addresses[..n], answers, stopThread);
    assert DeviceRecords(addresses, answers, stopThread) == init + [last];
    if k < n {
      assert init[k] == Device(addresses[k], Identification(ReplyAt(answers, k), stopThread)) by {
        DeviceRecordAt(addresses[..n], answers, stopThread, k);
        assert addresses[..n][k] == addresses[k];
      }
      SnocAt(init, last, k);
    } else {
      SnocAt(init, last, k);
    }
  }

  /** A joined list of digit strings starts and ends with a digit. */
  lemma {:induction false} JoinedDigitsEnds(xs: seq<string>, sep: char)
    requires |xs| > 0
    requires forall k :: 0 <= k < |xs| ==> IsDigits(xs[k])
    ensures |Join(xs, sep)| > 0
    ensures IsDigit(Join(xs, sep)[0]) && IsDigit(Join(xs, sep)[|Join(xs, sep)| - 1])
    decreases |xs|
  {
    if |xs| > 1 {
      JoinedDigitsEnds(xs[1..], sep);
      var tail := Join(xs[1..], sep);
      assert Join(xs, sep) == xs[0] + [sep] + tail;
    }
  }

  /** With the reader running, a `++fndl` reply listing the addresses separated
      by a non-word character yields exactly those listeners. */
  lemma ListenersOfListing(addresses: seq<nat>, sep: char)
    requires !IsWordChar(sep)
    ensures Listeners(Join(Decimals(addresses), sep), false) == addresses
  {
    var listing := Join(Decimals(addresses), sep);
    assert Waited("", false, listing) == listing;
    if |addresses| > 0 {
      JoinedDigitsEnds(Decimals(addresses), sep);
    }
    StripFixedPoint(listing);
    FindAddressesOfListing(addresses, sep);
  }

  /** Reading strips the answer already, so the second strip in
      `list_gpib_devices` changes nothing. */
  lemma RecordedIdn(answer: string)
    ensures IdnOrMarker(Strip(answer)) == IdnOrMarker(answer)
  {
    StripIdempotent(answer);
  }

  /** A reply with no standalone number gives an empty list and sends no query. */
  lemma NoListenersNoQueries(fndlReply: string)
    requires forall k :: 0 <= k < |fndlReply| ==> !IsDigit(fndlReply[k])
    ensures FindAddresses(fndlReply) == []
    ensures QueryCommands(FindAddresses(fndlReply)) == []
  {
    NoDigitsNoNumbers(fndlReply, false);
  }

  lemma {:induction false} NoDigitsNoNumbers(s: string, afterWord: bool)
    requires forall k :: 0 <= k < |s| ==> !IsDigit(s[k])
    ensures StandaloneNumbers(s, afterWord) == []
    decreases |s|
  {
    if s != [] {
      NoDigitsNoNumbers(s[1..], IsWordChar(s[0]));
    }
  }
}
