# rpi-ble sorter: a Dafny model

This project models the control software of a Raspberry Pi that sorts
electronic parts with a test handler over GPIB. Four parts are modelled:

- **The handler driver** (`handlerFunctions.py`). It configures the handler
  with a fixed handshake, then runs one sort cycle per part:
  - waits for a service request;
  - asks for the full sites and the part's 2D ID, retrying each query once;
  - sends PAUSE, decides the bin (pass when the ID is accepted, fail
    otherwise), sends RESUME, and only then sends the BINON command for
    that bin.
- **Two serial front ends for the AR488 USB-GPIB adapter**
  (`AR488Monitor.py`, `ar488_interface.py`). Each frames commands with
  CR/LF. A background reader fills a response buffer, and reads hand the
  buffer back stripped.
- **Two device listers built on those front ends** (`listDevicesAR488.py`
  and `list_gpib_devices`). Both ask the adapter for its listeners with
  `++fndl`, then ask each listener `*IDN?`.
- **The Bluetooth service** (`rpiSort.py`). A phone writes the handler's
  GPIB address, and the accepted IDs in chunks closed by an end-of-input
  key. The service then starts a sort job.

## How the model is organised

| file | models |
|---|---|
| `py_str.dfy` | The Python `str` operations the code relies on, with CPython's semantics. |
| `seqs.dfy` | Sequence lemmas shared by the proofs. |
| `status_byte.dfy` | How the polling loops read the IEEE 488.2 status byte. |
| `instrument.dfy` | The instrument the driver talks to. |
| `handler.dfy` | The driver. |
| `handler_props.dfy` | What the handler protocol guarantees. |
| `framing.dfy` | Command framing with CR/LF. |
| `monitor.dfy` | `AR488Monitor`. |
| `ar488.dfy` | `AR488` and `list_gpib_devices`. |
| `list_devices.dfy` | `list_devices`. |
| `rpi_sort.dfy` | The BLE service and its two write characteristics. |

The instrument in `instrument.dfy` is a class over scripts. It logs every
command written to it. It answers reads from a reply script and serial polls
from a status script. `Bus` is the same state as a value.

Each driver routine in `handler.dfy` is a module-level method that takes
the instrument as a parameter (`inst: ScriptedInstrument`) and modifies it.
Its contract says the new state and outcome equal a specification function
on `Bus` of the old state.

Objects whose fields the source updates are classes:

- `Ar488Monitor`, `Ar488` and `BleService`;
- the ID characteristic, which holds the module-wide `val_buffer`;
- the address characteristic.

The serial reader threads become a `Receive(data)` method: the chunk the
thread would append. What the adapter or a device answers becomes a method
parameter.

## Model

| member | source | states |
|---|---|---|
| StatusByte.Classify | handlerFunctions.py:94-112 | A byte is no event exactly when the RQS bit 0x40 is clear. It is a part-ready request exactly when it is 0x41, and an empty-socket check exactly when it is 0x44. Every other byte with RQS set is an unrecognised request. |
| Instrument.ScriptedInstrument.constructor | handlerFunctions.py:33 | A fresh instrument has sent nothing and holds its two scripts. |
| Instrument.ScriptedInstrument.Write | handlerFunctions.py:12-18 | The command is appended to the log; the scripts and the clear count are unchanged. |
| Instrument.ScriptedInstrument.ManualRead | handlerFunctions.py:20-26 | Returns and consumes the next scripted reply. Returns "" when none is left. Nothing else changes. |
| Instrument.ScriptedInstrument.GetStatusByte | handlerFunctions.py:62 | Returns and consumes the next status byte. Returns None, with no state change, once the script has run out. |
| Instrument.ScriptedInstrument.ClearBuffer | handlerFunctions.py:146 | Counts one clear of the receive buffer and changes nothing else. |
| Handler.GetBinNumber | handlerFunctions.py:148-160 | The result is always one of the two bins. In automatic mode it is the pass bin exactly for IDs in the set. In manual mode it is the typed number when that is a digit string naming one of the bins, and the fail bin otherwise. |
| Handler.ExtractId | handlerFunctions.py:133 | The ID never contains a comma, and is shorter than any non-empty reply it comes from. |
| Handler.BinonCommand | handlerFunctions.py:140 | The command starts with the fixed BINON site mask and ends with the bin number in decimal. |
| Handler.IsLotFinished | handlerFunctions.py:84-88 | The lot goes on exactly when the reply is "SRQKIND 2". "SRQKIND 8" and every unexpected reply end it. |
| Handler.BinPart | handlerFunctions.py:135-146 | Binning a part leaves the status script alone and clears the buffer exactly once. |
| Handler.SortAfterSrq | handlerFunctions.py:115-146 | The rest of a cycle always succeeds, polls nothing and clears the buffer once. |
| Handler.AwaitEmptySocket | handlerFunctions.py:60-69 | Polling for the empty socket sends nothing, reads no reply and clears nothing. It ends normally or runs out of status bytes, and only with the whole script consumed. |
| Handler.AwaitPartReady | handlerFunctions.py:92-113 | Polling for a part clears nothing. Its only possible mismatch is a wrong answer to the empty-socket check (expected CHECKEMPTY). Running out of bytes means the script is used up. |
| Handler.ConfigureSpec | handlerFunctions.py:28-78 | Configuration clears the buffer exactly once, whatever happens. A mismatch always names one of the four handshake acknowledgements or CHECKEMPTY. |
| Handler.SortCycleSpec | handlerFunctions.py:90-146 | A successful cycle clears the buffer once. A failing cycle must have been polling (no request already received) and cleared nothing. Its mismatch names CHECKEMPTY. |
| Handler.CyclesSpec | handlerFunctions.py:192-195 | A job that succeeds ran one cycle per part (one clear each). `handlerReady` stays set only when there were no parts. A job never clears more than once per part, and its mismatches name CHECKEMPTY. |
| Handler.FailureSticks | handlerFunctions.py:192-195 | Once a cycle has failed, more parts change nothing: the job ends at the first failing cycle. |
| Handler.RunJobSpec | handlerFunctions.py:182-195 | A job clears at most once for configuration plus once per part. A mismatch names a handshake acknowledgement or CHECKEMPTY. |
| Handler.WriteAndExpect | handlerFunctions.py:40-42 | One command is sent and one reply consumed. The outcome is Ok exactly when the reply is the expected text, and otherwise a mismatch naming both texts. |
| Handler.Configure | handlerFunctions.py:28-78 | The instrument's new state and outcome are those of `ConfigureSpec`: address, clear, the four checked exchanges in order, the wait for 0x44, then CHECKEMPTY and ECHOOK, stopping at the first mismatch. |
| Handler.PollForEmptySocket | handlerFunctions.py:60-69 | The state is that of `AwaitEmptySocket`: polls until the first 0x44 and sends nothing. |
| Handler.QueryRetryOnce | handlerFunctions.py:115-132 | The reply and state are those of `QueryWithRetry`: the query is sent again once when the reply lacks the expected prefix. |
| Handler.SortCycle | handlerFunctions.py:90-146 | The state and outcome are those of `SortCycleSpec`: poll for the part unless the request was already received, then query and bin. |
| Handler.LotFinished | handlerFunctions.py:80-88 | Sends SRQKIND?, consumes one reply and answers `IsLotFinished` of it. |
| Handler.RunJob | handlerFunctions.py:182-195 | The result is that of `RunJobSpec`: configure, a missing ID set becomes the empty set, then the part loop. |
| Handler.RunCycles | handlerFunctions.py:192-195 | The state and final `handlerReady` are those of `CyclesSpec` over `range(numParts)`; a negative count runs no cycle. |
| Handler.SortNextPart | handlerFunctions.py:192-195 | One pass of the part loop: after some completed cycles, the next cycle extends the job's result by exactly one part. |
| HandlerProperties.ExtractIdBetween | handlerFunctions.py:133 | The ID is the text between the first ':' and the first ','. |
| HandlerProperties.ExtractIdExample | handlerFunctions.py:133 | "QRC:abc,x" yields "abc". |
| HandlerProperties.ExtractIdWithoutComma | handlerFunctions.py:133 | With no comma, `find` gives -1 and the slice drops the reply's last character. |
| HandlerProperties.ExtractIdWithoutColon | handlerFunctions.py:133 | With no colon, the ID is everything before the first comma. |
| HandlerProperties.BinonRoundTrip | handlerFunctions.py:140 | The bin number can be parsed back from the BINON command. |
| HandlerProperties.BinonInjective | handlerFunctions.py:140 | Different bins give different commands. |
| HandlerProperties.BinonForPassAndFail | handlerFunctions.py:140 | The exact commands for bins 1 and 2. |
| HandlerProperties.QueryWithRetryAt | handlerFunctions.py:115-132 | A query with one retry sends its command once or twice, depending on the first reply's prefix. It consumes that many replies and returns the last. |
| HandlerProperties.SortAfterSrqTrace | handlerFunctions.py:115-146 | The exact command sequence a cycle sends and the exact number of replies it reads, for any reply script. |
| HandlerProperties.IdReplyAt | handlerFunctions.py:115-133 | The sites query and the ID query send FULLSITES? and QRC? once or twice each. The ID is read from the last QRC reply. |
| HandlerProperties.BinPartAt | handlerFunctions.py:135-146 | Binning sends PAUSE, RESUME, the BINON command (a second time unless the reply starts with "E") and ECHOOK. It reads one reply and clears once. |
| HandlerProperties.AcceptedPartGoesToPassBin | handlerFunctions.py:115-157 | With prompt replies and an accepted ID, the cycle sends exactly FULLSITES?, QRC?, PAUSE, RESUME, BINON for bin 1, ECHOOK. |
| HandlerProperties.RejectedPartGoesToFailBin | handlerFunctions.py:115-160 | The same with a rejected ID sends BINON for bin 2. |
| HandlerProperties.SitesQueryRetriedOnce | handlerFunctions.py:115-125 | A first sites reply without "Fullsites" makes the cycle start FULLSITES?, FULLSITES?, QRC?. |
| HandlerProperties.AwaitPartReadyAt | handlerFunctions.py:92-113 | Polling for a part ends at the first 0x41. Every 0x44 before it is answered with ++read and ECHOOK and consumes one CHECKEMPTY reply. |
| HandlerProperties.AwaitPartReadyOnlyAtPartReady | handlerFunctions.py:94-101 | Whenever polling succeeds, the last byte it consumed is 0x41 and no earlier one was. |
| HandlerProperties.AwaitPartReadyCheckEmptyMismatch | handlerFunctions.py:102-109 | An empty-socket request answered by anything but CHECKEMPTY fails the cycle after ++read. |
| HandlerProperties.SrqReceivedSkipsPolling | handlerFunctions.py:92 | A cycle entered with the request already received polls nothing and succeeds. |
| HandlerProperties.AwaitEmptySocketAt | handlerFunctions.py:60-69 | The configuration wait ends at the first 0x44, consumes exactly the bytes up to it and sends nothing. |
| HandlerProperties.AwaitEmptySocketExhausted | handlerFunctions.py:60-69 | Without a 0x44 the wait consumes the whole script and never ends normally. |
| HandlerProperties.ConfigureSucceeds | handlerFunctions.py:28-78 | With the expected acknowledgements and a 0x44, configuration sends exactly the address, ++clr, the four commands, REQUEST,CHECKEMPTY and ECHOOK, and clears once. |
| HandlerProperties.ConfigureStopsAtFirstMismatch | handlerFunctions.py:39-55 | The first wrong acknowledgement stops configuration right after its command, with a mismatch naming the expected and the received text. |
| HandlerProperties.RunJobMissingIdsAreEmpty | handlerFunctions.py:188-190 | A job without an ID set behaves exactly like one with the empty set. |
| HandlerProperties.EmptySetFailsEveryPart | handlerFunctions.py:148-160 | With the empty ID set a cycle never sends the pass-bin command. |
| Framing.Framed | AR488Monitor.py:52-56 | The framed command starts with the command, has one extra character per enabled terminator, CR right after the command, LF last. |
| Framing.UnframeFramed | AR488Monitor.py:52-55 | The command can be recovered from what goes on the wire. |
| Framing.FramedInjective | ar488_interface.py:51-54 | Different commands never put the same text on the wire. |
| Framing.FramedAll | ar488_interface.py:49-55 | Each command of a sequence goes out framed, one write each. |
| Framing.FramedAllAppend | ar488_interface.py:49-55 | Framing a sequence of commands is framing its parts in turn. |
| Monitor.Ar488Monitor.constructor | AR488Monitor.py:13-23 | A new monitor has an open port, a running reader, an empty buffer and nothing written. |
| Monitor.Ar488Monitor.Receive | AR488Monitor.py:35-41 | The reader appends a chunk only while it has not been told to stop. |
| Monitor.Ar488Monitor.Write | AR488Monitor.py:48-56 | The buffer is cleared and the command joins the written log; `Wire` frames it. |
| Monitor.Ar488Monitor.GetBuffer | AR488Monitor.py:58-61 | Returns the buffer stripped, with no white space at either end; the buffer is kept. |
| Monitor.Ar488Monitor.Close | AR488Monitor.py:63-67 | The reader is stopped and the port closed; buffer and log are kept. |
| Monitor.ResponseSinceWrite | AR488Monitor.py:48-61 | After a write, `get_buffer` returns exactly the chunks that arrived since, stripped, whatever was buffered before. |
| Monitor.ClosedMonitorIgnoresInput | AR488Monitor.py:35-41 | Once closed, no chunk changes the buffer. |
| Ar488Interface.DigitRun | ar488_interface.py:91 | The run is the longest prefix made only of digits: every character in it is a digit, and the next one is not. |
| Ar488Interface.StandaloneNumbers | ar488_interface.py:91 | Every match of `\b\d+\b` is a digit string, and there are no more matches than characters. |
| Ar488Interface.FindAddresses | ar488_interface.py:91 | The reply never yields more addresses than it has characters. |
| Ar488Interface.StandaloneNumbersOfJoin | ar488_interface.py:91 | Numbers joined by a non-word separator are found again, in order. |
| Ar488Interface.FindAddressesOfListing | ar488_interface.py:91 | A listing of addresses in decimal, separated by non-word characters, parses back to those addresses. |
| Ar488Interface.GluedNumberIsNoAddress | ar488_interface.py:91 | Digits glued to letters are no address: "ch12 7" yields only 7. |
| Ar488Interface.NoListenersNoQueries | ar488_interface.py:91-94 | A reply without digits gives no listeners and no queries. |
| Ar488Interface.NoDigitsNoNumbers | ar488_interface.py:91 | Text without digits has no matches. |
| Ar488Interface.ResponseSinceFlush | ar488_interface.py:25-62 | After a flush, a read returns exactly the chunks the reader delivered since, stripped, whatever was buffered before. The buffer ends empty and nothing is sent. |
| Ar488Interface.ClosedAdapterIgnoresInput | ar488_interface.py:25-62 | After `close`, no chunk reaches the buffer: a read returns only what was buffered before, stripped. |
| Ar488Interface.AddressCommand | ar488_interface.py:69-70 | The address command is "++addr " followed by the address in decimal. |
| Ar488Interface.AddressCommandRoundTrip | ar488_interface.py:69-70 | A listener's address parses back from the command that selects it. |
| Ar488Interface.AddressCommandInjective | ar488_interface.py:69-70 | Different addresses, negative ones included, give different commands. |
| Ar488Interface.Ar488.constructor | ar488_interface.py:7-20 | A new adapter has an open port, a running reader, an empty buffer and nothing sent. |
| Ar488Interface.Ar488.Receive | ar488_interface.py:25-30 | The reader appends a chunk only while it runs. |
| Ar488Interface.Ar488.Close | ar488_interface.py:37-41 | The reader is stopped and the port closed. |
| Ar488Interface.Ar488.Flush | ar488_interface.py:44-47 | The buffer is emptied; nothing else changes. |
| Ar488Interface.Ar488.Send | ar488_interface.py:49-55 | The command joins the sent log; the buffer is untouched. |
| Ar488Interface.Ar488.Read | ar488_interface.py:57-62 | Returns what was buffered plus what arrived during the wait, stripped, and empties the buffer. |
| Ar488Interface.Ar488.SendAndRead | ar488_interface.py:64-67 | One send followed by one read. |
| Ar488Interface.Ar488.SetAddress | ar488_interface.py:69-70 | Sends the address command. |
| Ar488Interface.Ar488.Identify | ar488_interface.py:72-76 | Sends the address command when one is given, then *IDN? and ++read, and returns the stripped answer. |
| Ar488Interface.IdnOrMarker | ar488_interface.py:100-102 | The recorded identification is never empty: the stripped answer, or "No response". |
| Ar488Interface.DeviceRecords | ar488_interface.py:94-102 | One record per listener. |
| Ar488Interface.QueryListener | ar488_interface.py:95-102 | Sends ++addr, *IDN? and ++read, and records the listener with its identification. |
| Ar488Interface.ReadIdentification | ar488_interface.py:100 | Reads the answer and turns it into the recorded identification. |
| Ar488Interface.QueryListeners | ar488_interface.py:94-102 | The loop's records and commands are `DeviceRecords` and `QueryCommands` of the listeners. |
| Ar488Interface.ListGpibDevices | ar488_interface.py:78-107 | Flushes, sends ++eoi 1, ++mode 1 and ++fndl, queries every listener found in the reply, records each, and closes the adapter. |
| Ar488Interface.QueryCommands | ar488_interface.py:94-99 | Three commands per listener. |
| Ar488Interface.QueryCommandsAt | ar488_interface.py:94-99 | The three commands for the k-th listener sit at positions 3k to 3k+2. |
| Ar488Interface.DeviceRecordAt | ar488_interface.py:94-102 | The k-th record holds the k-th listener and its answer. |
| Ar488Interface.ListenersOfListing | ar488_interface.py:82-91 | A `++fndl` reply listing addresses yields exactly those listeners. |
| Ar488Interface.RecordedIdn | ar488_interface.py:100-102 | The second `strip` of the identification changes nothing. |
| PyStr.Strip | AR488Monitor.py:61 | `strip` leaves no white space at either end, never lengthens, and gives "" exactly for all-white-space text. |
| PyStr.StripIsInfix | AR488Monitor.py:61 | The stripped text is a contiguous part of the original. |
| PyStr.StripFixedPoint | listDevicesAR488.py:10 | Text without white space at its ends is unchanged by `strip`. |
| PyStr.StripIdempotent | listDevicesAR488.py:21 | Stripping twice equals stripping once. |
| PyStr.Find | handlerFunctions.py:133 | `find` returns the first index of the character, or -1 exactly when it is absent. |
| PyStr.Slice | handlerFunctions.py:133 | Slicing normalises negative and out-of-range bounds as CPython does. |
| PyStr.Split | rpiSort.py:161 | `split` gives at least one piece, none containing the separator, and the whole text when the separator is absent. |
| PyStr.JoinSplit | rpiSort.py:161 | Joining the pieces of a split gives the text back. |
| PyStr.SplitJoin | rpiSort.py:161 | Splitting a join of separator-free pieces gives the pieces back. |
| PyStr.SplitLines | listDevicesAR488.py:9 | `splitlines` gives lines without line breaks and no more lines than characters. |
| PyStr.SplitLinesTerminated | listDevicesAR488.py:9 | Newline-terminated lines split back into those lines. |
| PyStr.ParseNatToString | handlerFunctions.py:154 | `int` of `str` of a natural number is that number. |
| PyStr.NatToStringInjective | handlerFunctions.py:140 | Different numbers have different decimal texts. |
| PyStr.IntToString | handlerFunctions.py:140 | `str` of an integer: the decimal digits, with "-" for negatives. |
| PyStr.Latin1Injective | rpiSort.py:159 | Different byte strings decode to different texts, so no payload is mistaken for another. |
| ListDevices.CleanLines | listDevicesAR488.py:10 | The kept lines are non-empty and stripped, and there are no more of them than input lines. |
| ListDevices.CleanLinesOne | listDevicesAR488.py:10 | One line is kept, stripped, exactly when it is not blank. |
| ListDevices.CleanLinesAppend | listDevicesAR488.py:10 | Cleaning two runs of lines one after the other is cleaning each of them, in order. |
| ListDevices.CleanLinesKeeps | listDevicesAR488.py:10 | Every line that is not blank is kept, stripped, after the kept lines before it and before the kept lines after it. |
| ListDevices.ListedDevices | listDevicesAR488.py:9-10 | Every listed device is non-empty and stripped, and there are no more devices than characters in the reply. |
| ListDevices.CleanLinesOfClean | listDevicesAR488.py:10 | Lines already stripped and non-blank pass through unchanged. |
| ListDevices.SplitLinesJoin | listDevicesAR488.py:9 | Non-empty lines joined by "\n" split back into those lines. |
| ListDevices.ListedDevicesOfListing | listDevicesAR488.py:6-10 | A `++fndl` reply listing clean addresses one per line yields exactly those addresses, in order. |
| ListDevices.DeviceKey | listDevicesAR488.py:23 | The key is the address with the "GPIB0::" and "::INSTR" wrapping, 14 characters longer. |
| ListDevices.KeyDeviceOfKey | listDevicesAR488.py:23 | The address can be read back from its key. |
| ListDevices.DeviceKeyInjective | listDevicesAR488.py:23 | Different addresses give different keys. |
| ListDevices.DeviceKeys | listDevicesAR488.py:16-23 | The k-th key is the key of the k-th device. |
| ListDevices.TableEntries | listDevicesAR488.py:16-23 | A table filled in order has at most one entry per position, never holds an empty value, and holds stripped values when it was given stripped ones. |
| ListDevices.DeviceTable | listDevicesAR488.py:16-23 | No more entries than devices, and every recorded answer is non-empty and stripped. |
| ListDevices.DeviceTableKeys | listDevicesAR488.py:16-23 | A key is in the table exactly when it is the key of a device that gave a non-empty answer. |
| ListDevices.DeviceTableValue | listDevicesAR488.py:16-23 | With distinct addresses, each answering device's entry holds its own answer. |
| ListDevices.IdentifyCommandsAt | listDevicesAR488.py:16-19 | The two commands for the k-th device sit at positions 2k and 2k+1. |
| ListDevices.QueryDevice | listDevicesAR488.py:17-21 | Writes ++addr and *IDN?, and returns exactly the answer that arrived after *IDN?, stripped. The monitor's buffer then holds that answer unstripped, because `get_buffer` does not clear it. |
| ListDevices.FindDevices | listDevicesAR488.py:6-11 | One monitor writes ++fndl, the device list is the clean lines of the stripped reply, and the monitor is closed. |
| ListDevices.IdentifyDevices | listDevicesAR488.py:13-28 | A second monitor queries every device in order; the table is `DeviceTable` of the answers, and the monitor is closed. |
| ListDevices.ListDevices | listDevicesAR488.py:4-29 | The returned table is `DeviceTable` of the listed devices. Both monitors wrote exactly the expected commands and are closed. |
| RpiSort.SetOf | rpiSort.py:162 | `set` of a list holds exactly its elements, no more of them than the list, and is non-empty for a non-empty list. |
| RpiSort.SplitCount | rpiSort.py:161 | `split(',')` gives one piece more than there are commas. |
| RpiSort.IdSetBounds | rpiSort.py:161-165 | The ID set is never empty and its IDs contain no comma. A job never has more parts than the buffer had commas plus one. |
| RpiSort.IdSetOfJoin | rpiSort.py:161-162 | Comma-free IDs joined by commas come back as their set. |
| RpiSort.WriteIds | rpiSort.py:153-168 | The key turns the buffer into the ID set and starts one job when an address is set. The buffer is emptied unless that job raises, in which case it is kept. Any other payload is appended, stripped, and changes nothing else. The address never changes. |
| RpiSort.WriteAddress | rpiSort.py:206-210 | The address becomes set and stripped; buffer, IDs and jobs are untouched. |
| RpiSort.EmptyTransferStartsBlankJob | rpiSort.py:159-165 | The key arriving on an empty buffer sets the IDs to {""} and starts a job with one part, whether or not that job raises. |
| RpiSort.FeedAppends | rpiSort.py:159-168 | Chunks other than the key only grow the buffer, by their stripped text, and change nothing else. |
| RpiSort.BufferedClean | rpiSort.py:159 | Chunks without white space at their ends reach the buffer unchanged. |
| RpiSort.TransferStartsJob | rpiSort.py:153-168 | Comma-joined IDs sent in clean chunks and closed by the key leave their set as the IDs and start one job over it with one part per distinct ID. When that job returns normally, the buffer is empty again. |
| RpiSort.FailedJobKeepsBuffer | rpiSort.py:159-165 | A job that raises still sets the IDs and starts, but the buffer is not emptied. |
| RpiSort.GluedTransferAfterFailedJob | rpiSort.py:159-168 | After a job that raised, the next transfer's text is joined onto the old buffer without a comma. |
| RpiSort.GluedIdsExample | rpiSort.py:159-168 | "a,b", a job that raises, then "c,d" and the key give the IDs a, bc and d. |
| RpiSort.NoJobWithoutAddress | rpiSort.py:62-67 | Without an address no sequence of writes starts a job. |
| RpiSort.AddressWriteCommutes | rpiSort.py:206-210 | Setting the address in the middle of an ID transfer does not disturb the IDs collected so far, whether or not a job raises. |
| RpiSort.AddressRoundTrip | rpiSort.py:206-210 | An address without white space at its ends is stored exactly as sent. |
| RpiSort.BleService.constructor | rpiSort.py:53-55 | A new service has no address, no IDs and no jobs. |
| RpiSort.BleService.SendJob | rpiSort.py:62-67 | A job over the IDs, with one part per ID, is started exactly when both the address and the IDs are set. It raises exactly when it started and the job raises. |
| RpiSort.BleService.GetAddress | rpiSort.py:69-70 | Returns the address. |
| RpiSort.BleService.SetAddress | rpiSort.py:72-73 | Sets the address only. |
| RpiSort.BleService.SetIds | rpiSort.py:75-76 | Sets the IDs only. |
| RpiSort.BleService.GetIds | rpiSort.py:78-82 | Returns the IDs, or an empty collection before any were set. |
| RpiSort.SendIdsCharacteristic.constructor | rpiSort.py:41 | The ID buffer starts empty. |
| RpiSort.SendIdsCharacteristic.WriteValue | rpiSort.py:153-168 | The buffer and the service change as `WriteIds` says. The key turns the buffer into the ID set and starts the job; the buffer is emptied only when `sendJob` returns normally. Any other payload is appended stripped. |
| RpiSort.SetAddressCharacteristic.constructor | rpiSort.py:201-204 | The characteristic belongs to its service. |
| RpiSort.SetAddressCharacteristic.WriteValue | rpiSort.py:206-211 | The stripped payload becomes the address; IDs and jobs are untouched. |

## Left out

- Serial I/O, threads and locks:
  - Bytes going out are the `Wire()` view of the command log, not an actual write.
  - A reader thread is one `Receive(data)` call per chunk. The lock that
    serialises `_buffer` is not modelled, because each modelled operation
    is atomic.
- Sleeps, `print` output and the communication log file. They do not affect
  the protocol.
- Decoding is not modelled: `decode(errors='ignore')` is left out and the
  model works on the decoded text.
- Exceptions other than the driver's own `assert`s are left out:
  - serial errors;
  - the `try`/`finally` of `list_gpib_devices`, which the model always
    completes with `close`.
- The driver calls `manual_read`, `getStatusByte` and `clear_buffer`, which
  `AR488Monitor.py` does not define. The driver's instrument is therefore a
  scripted object with exactly those operations. Reads that find the script
  used up return "".
- The driver's infinite polling loops stop with the outcome
  `StatusesExhausted` when the status script runs out. The source would
  poll forever.
- `configure` and `main` open the `AR488Monitor` themselves. The model
  passes the opened instrument in. The `handlerReady` global is a parameter
  and a returned value.
- `collect2DIDs` (spreadsheet reading), the `interactive` console loop and
  the `__main__` blocks are left out.
- In rpiSort.py, the following are left out:
  - the BLE plumbing (D-Bus, advertisements);
  - `AvailableDevicesCharacteristic` with its JSON USB listing;
  - the descriptors and `ReadValue` of the ID characteristic (it calls an
    `is_farenheit` the service does not define).
- RpiSort.BleService.SendJob records the job instead of calling `main`. What
  running a job does is `Handler.RunJob`. Whether `main` raises (a failed
  `assert`, the `Mismatch` outcome of `Handler.RunJob`) is the parameter
  `jobRaises`, so the ID characteristic can keep its buffer as the source does.
- Handler.GetBinNumber: manual mode accepts ASCII digits only. The source
  uses Unicode `isdigit` and `int`, so "١" (Arabic-Indic one) selects the
  pass bin in the source but the fail bin in the model. "²" makes `int`
  raise in the source but gives the fail bin in the model.
- RpiSort.BleService.GetIds returns an empty set where the source returns an
  empty list, because the model has one type for the IDs.
- Ar488Interface.StandaloneNumbers: `\b\d+\b` is modelled for ASCII text.
  Word characters are ASCII letters, digits and `_`, and digits are ASCII
  digits.
- Ar488Interface.Ar488.Read: the text that arrives during the wait is one
  parameter `arrived`, appended as a single chunk.
- Monitor.Ar488Monitor.Write and Ar488Interface.Ar488.Send state the new
  command log. What goes out on the port is derived from the log by
  `Wire()`, and `Framing.FramedAllAppend` relates the two.
- cputemp.py, exec.py, gpib_usb_configure.py and listDevicesUSB.py are not
  part of this model.
