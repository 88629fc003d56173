/** How both serial front ends (AR488Monitor.py and ar488_interface.py) put a
    command on the wire: the command, then "\r" when `append_cr` is set, then
    "\n" when `append_lf` is set. */
module Framing {
  import opened PyStr

  function Framed(command: string, appendCr: bool, appendLf: bool): (wire: string)
    ensures StartsWith(wire, command)
    ensures |wire| == |command| + (if appendCr then 1 else 0) + (if appendLf then 1 else 0)
    ensures appendCr ==> wire[|command|] == '\r'
    ensures appendLf ==> wire[|wire| - 1] == '\n'
    ensures !appendCr && !appendLf ==> wire == command
  {
    command + (if appendCr then "\r" else "") + (if appendLf then "\n" else "")
  }

  /** The command a framed write carries, the terminators taken off again. */
  function Unframed(wire: string, appendCr: bool, appendLf: bool): string
    requires |wire| >= (if appendCr then 1 else 0) + (if appendLf then 1 else 0)
  {
    wire[..|wire| - (if appendCr then 1 else 0) - (if appendLf then 1 else 0)]
  }

  /** Framing loses nothing: the receiving side can take the command back out. */
  lemma UnframeFramed(command: string, appendCr: bool, appendLf: bool)
    ensures Unframed(Framed(command, appendCr, appendLf), appendCr, appendLf) == command
  {
  }

  /** Two writes put the same bytes on the wire only for the same command. */
  lemma FramedInjective(c1: string, c2: string, appendCr: bool, appendLf: bool)
    requires Framed(c1, appendCr, appendLf) == Framed(c2, appendCr, appendLf)
    ensures c1 == c2
  {
    UnframeFramed(c1, appendCr, appendLf);
    UnframeFramed(c2, appendCr, appendLf);
  }

  /** A sequence of commands as they go out, framed one write at a time. */
  function FramedAll(commands: seq<string>, appendCr: bool, appendLf: bool): (wire: seq<string>)
    ensures |wire| == |commands|
    ensures forall i :: 0 <= i < |commands| ==> wire[i] == Framed(commands[i], appendCr, appendLf)
  {
    seq(|commands|, i requires 0 <= i < |commands| => Framed(commands[i], appendCr, appendLf))
  }

  /** Framing a sequence of commands is framing each part of it in turn. */
  lemma FramedAllAppend(a: seq<string>, b: seq<string>, appendCr: bool, appendLf: bool)
    ensures FramedAll(a + b, appendCr, appendLf) == FramedAll(a, appendCr, appendLf) + FramedAll(b, appendCr, appendLf)
  {
  }

}
