/** The test-handler protocol driver of handlerFunctions.py: the configuration
    handshake, the per-part sort cycle with its service-request polling, the
    bin decision, the lot-finished query and the job loop. Each driver routine
    is a method on the scripted instrument, proved equal to a specification
    function on the instrument's state (`Bus`); handler_props.dfy proves what
    the protocol promises about those functions. */
module Handler {
  import opened PyStr
  import opened StatusByte
  import opened Instrument

  /** How a driver routine ends: normally, at a failed `assert` on a reply
      (the AssertionError the source raises), or with the status script used
      up while the driver was still polling (the source would poll forever). */
  datatype Outcome = Ok | Mismatch(expected: string, received: string) | StatusesExhausted

  datatype Step = Step(bus: Bus, outcome: Outcome)

  /** The three configuration commands and the capability query, each with the
      acknowledgement the handler must give word for word. */
  const ConfigCommands: seq<string> :=
    ["CONFIGURE,SRQ=Y", "CONFIGURE,FULLSITES?=Y", "CONFIGURE,CONTACTOR=Y", "QRM?"]
  const ConfigAcks: seq<string> :=
    ["CONFIGURE,SRQ=Y:OK", "CONFIGURE,FULLSITES?=Y:OK", "CONFIGURE,CONTACTOR=Y:OK", "QRM:1"]

  /** The site mask every BINON command carries before its bin digits. */
  const BinonPrefix: string := "BINON:00000000,00000000,00000000,0000000"

  // ---------------------------------------------------------------------------
  // Pure decisions

  /** `getBinNumber`: in automatic mode the pass bin exactly for accepted IDs;
      in manual mode the operator's answer `typed` (the `input()` reply) when it
      is a digit string naming one of the two bins, the fail bin otherwise. */
  function GetBinNumber(id: string, idSet: set<string>, passBin: int, failBin: int,
                        manual: bool, typed: string): (bin: int)
    ensures bin == passBin || bin == failBin
    ensures !manual && id in idSet ==> bin == passBin
    ensures !manual && id !in idSet ==> bin == failBin
    ensures !manual && passBin != failBin ==> (bin == passBin <==> id in idSet)
    ensures manual && IsDigits(typed) && (ParseNat(typed) == passBin || ParseNat(typed) == failBin)
      ==> bin == ParseNat(typed)
    ensures manual && bin != failBin ==> IsDigits(typed) && ParseNat(typed) == bin
  {
    if manual then
      if IsDigits(typed) && (ParseNat(typed) == passBin || ParseNat(typed) == failBin)
      then ParseNat(typed) else failBin
    else if id in idSet then passBin
    else failBin
  }

  /** The device identifier in a `QRC?` reply:
      `response[response.find(':') + 1 : response.find(',')]`. */
  function ExtractId(response: string): (id: string)
    ensures ',' !in id
    ensures response != "" ==> |id| < |response|
  {
    Slice(response, Find(response, ':') + 1, Find(response, ','))
  }

  /** The command that sends the current part to `bin`. */
  function BinonCommand(bin: int): (cmd: string)
    ensures StartsWith(cmd, BinonPrefix)
    ensures cmd[|BinonPrefix|..] == IntToString(bin)
  {
    BinonPrefix + IntToString(bin)
  }

  /** How the handler answered `SRQKIND?`. */
  datatype SrqKind = LotNotFinished | LotDone | UnexpectedKind

  function SrqKindOf(response: string): SrqKind {
    if response == "SRQKIND 2" then LotNotFinished
    else if response == "SRQKIND 8" then LotDone
    else UnexpectedKind
  }

  /** `lotFinished`'s answer for a reply: only "SRQKIND 2" means the lot goes on;
      "SRQKIND 8" and every unexpected reply end it. */
  function IsLotFinished(response: string): (finished: bool)
    ensures !finished <==> response == "SRQKIND 2"
    ensures response == "SRQKIND 8" ==> finished
    ensures SrqKindOf(response) == UnexpectedKind ==> finished
  {
    SrqKindOf(response) != LotNotFinished
  }

  // ---------------------------------------------------------------------------
  // Specification of the driver on the instrument's state

  /** `write(inst, cmd)` followed by `read(inst)`. */
  function Exchange(b: Bus, cmd: string): Reply {
    Receive(Send(b, cmd))
  }

  /** Sends `cmd`, and sends it once more when the reply does not start with
      `prefix`; the second reply is taken whatever it is. */
  function QueryWithRetry(b: Bus, cmd: string, prefix: string): Reply {
    var first := Exchange(b, cmd);
    if StartsWith(first.text, prefix) then first else Exchange(first.bus, cmd)
  }

  /** Sends `cmd` and requires the reply to be exactly `ack`. */
  function Expect(b: Bus, cmd: string, ack: string): Step {
    var r := Exchange(b, cmd);
    Step(r.bus, if r.text == ack then Ok else Mismatch(ack, r.text))
  }

  /** The empty-socket acknowledgement: (`++read` when `requestRead`), a reply
      that must be `CHECKEMPTY`, then `ECHOOK`. */
  function EmptySocketAck(b: Bus, requestRead: bool): (s: Step)
    ensures s.bus.statuses == b.statuses
  {
    var b1 := if requestRead then Send(b, "++read") else b;
    var r := Receive(b1);
    if r.text == "CHECKEMPTY" then Step(Send(r.bus, "ECHOOK"), Ok)
    else Step(r.bus, Mismatch("CHECKEMPTY", r.text))
  }

  /** The polling loop of `configure`: poll until the status byte is 0x44. */
  function AwaitEmptySocket(b: Bus): (s: Step)
    ensures s.bus.sent == b.sent && s.bus.replies == b.replies && s.bus.clears == b.clears
    ensures s.outcome == Ok || s.outcome == StatusesExhausted
    ensures s.outcome == StatusesExhausted ==> s.bus.statuses == []
    decreases |b.statuses|
  {
    match PollStatus(b)
    case Exhausted => Step(b, StatusesExhausted)
    case Polled(status, b1) =>
      if Classify(status) == EmptyCheck then Step(b1, Ok) else AwaitEmptySocket(b1)
  }

  /** The polling loop of `sortCycle`: 0x41 ends it, 0x44 runs the empty-socket
      acknowledgement and goes on polling, every other byte goes on polling. */
  function AwaitPartReady(b: Bus): (s: Step)
    ensures s.bus.clears == b.clears
    ensures s.outcome.Mismatch? ==> s.outcome.expected == "CHECKEMPTY"
    ensures s.outcome == StatusesExhausted ==> s.bus.statuses == []
    decreases |b.statuses|
  {
    match PollStatus(b)
    case Exhausted => Step(b, StatusesExhausted)
    case Polled(status, b1) =>
      match Classify(status)
      case PartReady => Step(b1, Ok)
      case EmptyCheck =>
        var ack := EmptySocketAck(b1, true);
        if ack.outcome.Ok? then AwaitPartReady(ack.bus) else ack
      case _ => AwaitPartReady(b1)
  }

  /** `configure`: address and clear the handler, run the handshake, then wait
      for the empty-socket request and acknowledge it. */
  function ConfigureSpec(b: Bus, gpibAddr: string): (s: Step)
    ensures s.bus.clears == b.clears + 1
    ensures s.outcome.Mismatch? ==> s.outcome.expected in ConfigAcks || s.outcome.expected == "CHECKEMPTY"
  {
    var b0 := Cleared(Send(Send(b, "++addr " + gpibAddr), "++clr"));
    var s1 := Expect(b0, ConfigCommands[0], ConfigAcks[0]);
    if !s1.outcome.Ok? then s1 else
    var s2 := Expect(s1.bus, ConfigCommands[1], ConfigAcks[1]);
    if !s2.outcome.Ok? then s2 else
    var s3 := Expect(s2.bus, ConfigCommands[2], ConfigAcks[2]);
    if !s3.outcome.Ok? then s3 else
    var s4 := Expect(s3.bus, ConfigCommands[3], ConfigAcks[3]);
    if !s4.outcome.Ok? then s4 else
    var w := AwaitEmptySocket(Send(s4.bus, "REQUEST,CHECKEMPTY"));
    if !w.outcome.Ok? then w else EmptySocketAck(w.bus, false)
  }

  /** The end of `sortCycle` once the ID is known: PAUSE, the bin decision
      (`getBinNumber` with its default bins 1 and 2), RESUME, the bin (sent again
      unless the reply starts with "E"), ECHOOK, and the buffer cleared. */
  function BinPart(b: Bus, id: string, idSet: set<string>): (r: Bus)
    ensures r.statuses == b.statuses && r.clears == b.clears + 1
  {
    var paused := Send(b, "PAUSE");
    var bin := GetBinNumber(id, idSet, 1, 2, false, "");
    var resumed := Send(paused, "RESUME");
    var binon := BinonCommand(bin);
    var ack := Exchange(resumed, binon);
    var binned := if StartsWith(ack.text, "E") then ack.bus else Send(ack.bus, binon);
    Cleared(Send(binned, "ECHOOK"))
  }

  /** The part of `sortCycle` after the service request: query the sites and
      the ID, each retried once, then bin the part. */
  function SortAfterSrq(b: Bus, idSet: set<string>): (s: Step)
    ensures s.outcome == Ok && s.bus.statuses == b.statuses && s.bus.clears == b.clears + 1
  {
    var sites := QueryWithRetry(b, "FULLSITES?", "Fullsites");
    var qrc := QueryWithRetry(sites.bus, "QRC?", "QRC:");
    Step(BinPart(qrc.bus, ExtractId(qrc.text), idSet), Ok)
  }

  /** `sortCycle`: wait for the part unless the request was already received. */
  function SortCycleSpec(b: Bus, idSet: set<string>, srqReceived: bool): (s: Step)
    ensures s.outcome.Ok? ==> s.bus.clears == b.clears + 1
    ensures !s.outcome.Ok? ==> !srqReceived && s.bus.clears == b.clears
    ensures s.outcome.Mismatch? ==> s.outcome.expected == "CHECKEMPTY"
  {
    if srqReceived then SortAfterSrq(b, idSet)
    else
      var w := AwaitPartReady(b);
      if w.outcome.Ok? then SortAfterSrq(w.bus, idSet) else w
  }

  /** The state `main` leaves: the last step, and the `handlerReady` global. */
  datatype JobResult = JobResult(step: Step, handlerReady: bool)

  /** The first `n` sort cycles of the part loop, the first with `srqReceived == handlerReady`;
      every completed cycle resets `handlerReady`, and the first failing cycle ends the job. */
  function CyclesSpec(b: Bus, idSet: set<string>, n: nat, handlerReady: bool): (r: JobResult)
    ensures r.step.bus.clears <= b.clears + n
    ensures r.step.outcome.Ok? ==> r.step.bus.clears == b.clears + n && r.handlerReady == (handlerReady && n == 0)
    ensures r.step.outcome.Mismatch? ==> r.step.outcome.expected == "CHECKEMPTY"
    decreases n
  {
    if n == 0 then JobResult(Step(b, Ok), handlerReady)
    else
      var r := CyclesSpec(b, idSet, n - 1, handlerReady);
      if !r.step.outcome.Ok? then r
      else
        var c := SortCycleSpec(r.step.bus, idSet, r.handlerReady);
        JobResult(c, if c.outcome.Ok? then false else r.handlerReady)
  }

  /** Once a cycle has failed, running more parts changes nothing: the job has ended. */
  lemma {:induction false} FailureSticks(b: Bus, idSet: set<string>, k: nat, m: nat, handlerReady: bool)
    requires k <= m
    requires !CyclesSpec(b, idSet, k, handlerReady).step.outcome.Ok?
    ensures CyclesSpec(b, idSet, m, handlerReady) == CyclesSpec(b, idSet, k, handlerReady)
    decreases m - k
  {
    if k < m {
      FailureSticks(b, idSet, k, m - 1, handlerReady);
    }
  }

  /** Python's `range(numParts)` runs `numParts` times, and not at all when it is negative. */
  function PartCount(numParts: int): nat {
    if numParts < 0 then 0 else numParts
  }

  /** `main`: configure, replace a missing ID set by the empty set, run the cycles. */
  function RunJobSpec(b: Bus, gpibAddr: string, numParts: int, idSet: Option<set<string>>,
                      handlerReady: bool): (r: JobResult)
    ensures r.step.bus.clears <= b.clears + 1 + PartCount(numParts)
    ensures r.step.outcome.Mismatch? ==> r.step.outcome.expected in ConfigAcks || r.step.outcome.expected == "CHECKEMPTY"
  {
    var c := ConfigureSpec(b, gpibAddr);
    if !c.outcome.Ok? then JobResult(c, handlerReady)
    else
      var ids := if idSet.None? then {} else idSet.value;
      CyclesSpec(c.bus, ids, PartCount(numParts), handlerReady)
  }

  // ---------------------------------------------------------------------------
  // The driver

  /** `write(inst, cmd)`, `read(inst)` and the `assert` on the reply. */
  method WriteAndExpect(inst: ScriptedInstrument, cmd: string, ack: string) returns (outcome: Outcome)
    modifies inst
    ensures Step(inst.State(), outcome) == Expect(old(inst.State()), cmd, ack)
  {
    inst.Write(cmd);
    var response := inst.ManualRead();
    outcome := if response == ack then Ok else Mismatch(ack, response);
  }

  /** `configure(GPIBaddr)` on an already opened instrument. */
  method Configure(inst: ScriptedInstrument, gpibAddr: string) returns (outcome: Outcome)
    modifies inst
    ensures Step(inst.State(), outcome) == ConfigureSpec(old(inst.State()), gpibAddr)
  {
    inst.Write("++addr " + gpibAddr);
    inst.Write("++clr");
    inst.ClearBuffer();
    outcome := WriteAndExpect(inst, ConfigCommands[0], ConfigAcks[0]);
    if !outcome.Ok? { return; }
    outcome := WriteAndExpect(inst, ConfigCommands[1], ConfigAcks[1]);
    if !outcome.Ok? { return; }
    outcome := WriteAndExpect(inst, ConfigCommands[2], ConfigAcks[2]);
    if !outcome.Ok? { return; }
    outcome := WriteAndExpect(inst, ConfigCommands[3], ConfigAcks[3]);
    if !outcome.Ok? { return; }

    inst.Write("REQUEST,CHECKEMPTY");
    outcome := PollForEmptySocket(inst);
    if !outcome.Ok? { return; }
    var response := inst.ManualRead();
    if response != "CHECKEMPTY" {
      return Mismatch("CHECKEMPTY", response);
    }
    inst.Write("ECHOOK");
    outcome := Ok;
  }

  /** The polling loop of `configure`: serial polls until a service request
      with status 0x44. */
  method PollForEmptySocket(inst: ScriptedInstrument) returns (outcome: Outcome)
    modifies inst
    ensures Step(inst.State(), outcome) == AwaitEmptySocket(old(inst.State()))
  {
    ghost var polling := inst.State();
    while true
      invariant AwaitEmptySocket(inst.State()) == AwaitEmptySocket(polling)
      decreases |inst.statuses|
    {
      ghost var before := inst.State();
      var status := inst.GetStatusByte();
      if status.None? {
        return StatusesExhausted;
      }
      if status.value & 0x40 != 0 {
        if status.value == 0x44 {
          assert AwaitEmptySocket(before) == Step(inst.State(), Ok);
          return Ok;
        }
      }
    }
  }

  /** `write(inst, cmd)`, `read(inst)`, and once more when the reply does not
      start with `prefix` (the one-iteration retry loop of the source). */
  method QueryRetryOnce(inst: ScriptedInstrument, cmd: string, prefix: string) returns (response: string)
    modifies inst
    ensures Reply(response, inst.State()) == QueryWithRetry(old(inst.State()), cmd, prefix)
  {
    inst.Write(cmd);
    response := inst.ManualRead();
    if !StartsWith(response, prefix) {
      inst.Write(cmd);
      response := inst.ManualRead();
    }
  }

  /** `sortCycle`. `passBin` and `failBin` are accepted and, as in the source,
      not passed on to `getBinNumber`. */
  method SortCycle(inst: ScriptedInstrument, idSet: set<string>, passBin: int, failBin: int,
                   srqReceived: bool) returns (outcome: Outcome)
    modifies inst
    ensures Step(inst.State(), outcome) == SortCycleSpec(old(inst.State()), idSet, srqReceived)
  {
    if !srqReceived {
      ghost var polling := inst.State();
      while true
        invariant AwaitPartReady(inst.State()) == AwaitPartReady(polling)
        decreases |inst.statuses|
      {
        ghost var before := inst.State();
        var status := inst.GetStatusByte();
        if status.None? {
          return StatusesExhausted;
        }
        if status.value & 0x40 != 0 {
          if status.value == 0x41 {
            assert AwaitPartReady(before) == Step(inst.State(), Ok);
            break;
          }
          if status.value == 0x44 {
            inst.Write("++read");
            var response := inst.ManualRead();
            if response != "CHECKEMPTY" {
              return Mismatch("CHECKEMPTY", response);
            }
            inst.Write("ECHOOK");
          }
        }
      }
    }

    ghost var ready := inst.State();
    var _ := QueryRetryOnce(inst, "FULLSITES?", "Fullsites");
    var response := QueryRetryOnce(inst, "QRC?", "QRC:");
    var id := ExtractId(response);

    inst.Write("PAUSE");
    var bin := GetBinNumber(id, idSet, 1, 2, false, "");
    inst.Write("RESUME");

    inst.Write(BinonCommand(bin));
    response := inst.ManualRead();
    if !StartsWith(response, "E") {
      inst.Write(BinonCommand(bin));
    }
    inst.Write("ECHOOK");
    inst.ClearBuffer();
    assert Step(inst.State(), Ok) == SortAfterSrq(ready, idSet);
    outcome := Ok;
  }

  /** `lotFinished`. */
  method LotFinished(inst: ScriptedInstrument) returns (finished: bool)
    modifies inst
    ensures var r := Exchange(old(inst.State()), "SRQKIND?");
      inst.State() == r.bus && finished == IsLotFinished(r.text)
  {
    inst.Write("SRQKIND?");
    var response := inst.ManualRead();
    if response == "SRQKIND 2" {
      return false;
    } else if response == "SRQKIND 8" {
      return true;
    } else {
      return true;
    }
  }

  /** `main` on an already opened instrument; `handlerReady` is the global of
      that name on entry, and the returned value is the global on exit. */
  method RunJob(inst: ScriptedInstrument, gpibAddr: string, numParts: int,
                idSet: Option<set<string>>, handlerReady: bool)
    returns (outcome: Outcome, handlerReadyAfter: bool)
    modifies inst
    ensures JobResult(Step(inst.State(), outcome), handlerReadyAfter)
      == RunJobSpec(old(inst.State()), gpibAddr, numParts, idSet, handlerReady)
  {
    handlerReadyAfter := handlerReady;
    outcome := Configure(inst, gpibAddr);
    if !outcome.Ok? {
      return;
    }
    var ids := if idSet.None? then {} else idSet.value;
    outcome, handlerReadyAfter := RunCycles(inst, ids, numParts, handlerReady);
  }

  /** The part loop of `main`: one sort cycle per part, stopping at the first
      cycle that fails. */
  method RunCycles(inst: ScriptedInstrument, ids: set<string>, numParts: int, handlerReady: bool)
    returns (outcome: Outcome, handlerReadyAfter: bool)
    modifies inst
    ensures JobResult(Step(inst.State(), outcome), handlerReadyAfter)
      == CyclesSpec(old(inst.State()), ids, PartCount(numParts), handlerReady)
  {
    outcome := Ok;
    handlerReadyAfter := handlerReady;
    ghost var start := inst.State();
    var count := PartCount(numParts);
    var done := 0;
    while done < count && outcome.Ok?
      invariant done <= count
      invariant CyclesSpec(start, ids, done, handlerReady) == JobResult(Step(inst.State(), outcome), handlerReadyAfter)
    {
      outcome, handlerReadyAfter := SortNextPart(inst, ids, start, done, handlerReady, handlerReadyAfter);
      done := done + 1;
    }
    if !outcome.Ok? {
      FailureSticks(start, ids, done, count, handlerReady);
    }
  }

  /** One pass of the part loop: after `done` completed cycles from `start`, the next
      cycle extends the job by one part. */
  method SortNextPart(inst: ScriptedInstrument, ids: set<string>, ghost start: Bus, done: nat,
                      handlerReady: bool, srqReceived: bool)
    returns (outcome: Outcome, handlerReadyAfter: bool)
    requires CyclesSpec(start, ids, done, handlerReady) == JobResult(Step(inst.State(), Ok), srqReceived)
    modifies inst
    ensures CyclesSpec(start, ids, done + 1, handlerReady) == JobResult(Step(inst.State(), outcome), handlerReadyAfter)
  {
    outcome := SortCycle(inst, ids, 1, 2, srqReceived);
    handlerReadyAfter := if outcome.Ok? then false else srqReceived;
  }
}
