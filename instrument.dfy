/** The instrument the handler driver talks to, as a scripted object: it logs
    every command written to it, answers each read with the next reply of a
    script, and answers each serial poll with the next status byte of another
    script. `Bus` is the same state as a value, so that the driver's behaviour
    can be specified by functions on it. */
module Instrument {

  datatype Option<T> = None | Some(value: T)

  /** Commands sent so far, replies and status bytes still to come, and how
      often the receive buffer was cleared. */
  datatype Bus = Bus(sent: seq<string>, replies: seq<string>, statuses: seq<bv8>, clears: nat)

  /** A reply read from the bus and the bus after the read. */
  datatype Reply = Reply(text: string, bus: Bus)

  /** The result of a serial poll: the status script has run out, or a status byte. */
  datatype Poll = Exhausted | Polled(status: bv8, bus: Bus)

  /** The `k`-th reply of a script, or "" once the script has run out. */
  function ReplyAt(rs: seq<string>, k: nat): string {
    if k < |rs| then rs[k] else ""
  }

  /** The replies of a script left after `k` reads. */
  function Drop(rs: seq<string>, k: nat): seq<string> {
    if k <= |rs| then rs[k..] else []
  }

  /** Writing a command appends it to the log and touches nothing else. */
  function Send(b: Bus, cmd: string): (r: Bus)
    ensures r.sent == b.sent + [cmd]
    ensures r.replies == b.replies && r.statuses == b.statuses && r.clears == b.clears
  {
    b.(sent := b.sent + [cmd])
  }

  /** Reading takes the next scripted reply; a device with nothing more to say gives "". */
  function Receive(b: Bus): (r: Reply)
    ensures b.replies != [] ==> r.text == b.replies[0] && r.bus.replies == b.replies[1..]
    ensures b.replies == [] ==> r.text == "" && r.bus == b
    ensures r.bus.sent == b.sent && r.bus.statuses == b.statuses && r.bus.clears == b.clears
  {
    if b.replies == [] then Reply("", b)
    else Reply(b.replies[0], b.(replies := b.replies[1..]))
  }

  /** A serial poll takes the next scripted status byte. */
  function PollStatus(b: Bus): (p: Poll)
    ensures p.Exhausted? <==> b.statuses == []
    ensures p.Polled? ==> p.status == b.statuses[0] && p.bus == b.(statuses := b.statuses[1..])
  {
    if b.statuses == [] then Exhausted else Polled(b.statuses[0], b.(statuses := b.statuses[1..]))
  }

  /** Clearing the receive buffer is counted; the scripts are unaffected. */
  function Cleared(b: Bus): (r: Bus)
    ensures r.clears == b.clears + 1
    ensures r.sent == b.sent && r.replies == b.replies && r.statuses == b.statuses
  {
    b.(clears := b.clears + 1)
  }

  /** The instrument object the driver holds (an `AR488Monitor` in the source,
      extended with the `manual_read`, `getStatusByte` and `clear_buffer` the
      driver calls on it). */
  class ScriptedInstrument {
    var sent: seq<string>
    var replies: seq<string>
    var statuses: seq<bv8>
    var clears: nat

    constructor (replies: seq<string>, statuses: seq<bv8>)
      ensures State() == Bus([], replies, statuses, 0)
    {
      this.sent := [];
      this.replies := replies;
      this.statuses := statuses;
      this.clears := 0;
    }

    function State(): Bus
      reads this
    {
      Bus(sent, replies, statuses, clears)
    }

    /** `write(cmd)`. */
    method Write(cmd: string)
      modifies this
      ensures State() == Send(old(State()), cmd)
    {
      sent := sent + [cmd];
    }

    /** `manual_read()`. */
    method ManualRead() returns (text: string)
      modifies this
      ensures Reply(text, State()) == Receive(old(State()))
    {
      if replies == [] {
        text := "";
      } else {
        text := replies[0];
        replies := replies[1..];
      }
    }

    /** `getStatusByte()`; `None` when the status script has run out. */
    method GetStatusByte() returns (status: Option<bv8>)
      modifies this
      ensures match PollStatus(old(State()))
        case Exhausted => status == None && State() == old(State())
        case Polled(s, b) => status == Some(s) && State() == b
    {
      if statuses == [] {
        status := None;
      } else {
        status := Some(statuses[0]);
        statuses := statuses[1..];
      }
    }

    /** `clear_buffer()`. */
    method ClearBuffer()
      modifies this
      ensures State() == Cleared(old(State()))
    {
      clears := clears + 1;
    }
  }
}
