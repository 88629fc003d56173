/** What the handler protocol promises, proved about the specification
    functions of module Handler (and so, through the methods' postconditions,
    about the driver itself). */
module HandlerProperties {
  import opened PyStr
  import opened StatusByte
  import opened Instrument
  import opened Handler
  import opened Seqs

  // ---------------------------------------------------------------------------
  // Reading a reply script

  lemma ReceiveAt(b: Bus, rs: seq<string>, k: nat)
    requires b.replies == Drop(rs, k)
    ensures Receive(b).text == ReplyAt(rs, k)
    ensures Receive(b).bus == b.(replies := Drop(rs, k + 1))
  {
  }

  function Repeat(cmd: string, n: nat): (r: seq<string>)
    ensures |r| == n
    ensures forall k :: 0 <= k < n ==> r[k] == cmd
  {
    seq(n, _ => cmd)
  }

  // ---------------------------------------------------------------------------
  // The ID slice and the BINON command

  /** The ID is what stands between the first ':' and the first ',' of the reply. */
  lemma ExtractIdBetween(p: string, id: string, rest: string)
    requires ':' !in p && ',' !in p && ',' !in id
    ensures ExtractId(p + ":" + id + "," + rest) == id
  {
    var q := p + ":" + id + "," + rest;
    var i, j := |p|, |p| + 1 + |id|;
    assert q[..i] == p && q[i] == ':';
    FindFirst(q, ':', i);
    assert q[..j] == p + ":" + id && q[j] == ',';
    FindFirst(q, ',', j);
    assert q[i + 1..j] == id;
  }

  /** For the reply "QRC:abc,x" the ID is "abc". */
  lemma ExtractIdExample()
    ensures ExtractId("QRC:abc,x") == "abc"
  {
    ExtractIdBetween("QRC", "abc", "x");
    assert "QRC" + ":" + "abc" + "," + "x" == "QRC:abc,x";
  }

  /** Without a ',' in the reply, `find` gives -1 and the slice loses the reply's
      last character: "QRC:abc" yields "ab". */
  lemma ExtractIdWithoutComma(q: string)
    requires ',' !in q && ':' in q
    requires Find(q, ':') + 1 < |q|
    ensures ExtractId(q) == q[Find(q, ':') + 1..|q| - 1]
  {
  }

  /** Without ':' the slice starts at the beginning of the reply. */
  lemma ExtractIdWithoutColon(q: string)
    requires ':' !in q && ',' in q
    ensures ExtractId(q) == q[..Find(q, ',')]
  {
  }

  /** The bin can be read back from a BINON command. */
  lemma BinonRoundTrip(bin: nat)
    ensures var cmd := BinonCommand(bin);
      StartsWith(cmd, BinonPrefix) && ParseNat(cmd[|BinonPrefix|..]) == bin
  {
    ParseNatToString(bin);
  }

  /** Different bins give different BINON commands. */
  lemma BinonInjective(m: nat, n: nat)
    requires BinonCommand(m) == BinonCommand(n)
    ensures m == n
  {
    BinonRoundTrip(m);
    BinonRoundTrip(n);
  }

  /** The commands for bins 1 and 2 spelled out. */
  lemma BinonForPassAndFail()
    ensures BinonCommand(1) == "BINON:00000000,00000000,00000000,00000001"
    ensures BinonCommand(2) == "BINON:00000000,00000000,00000000,00000002"
  {
    assert NatToString(1) == "1" && NatToString(2) == "2";
  }

  // ---------------------------------------------------------------------------
  // The sort cycle after the service request

  /** The commands of one cycle: the sites query (sent `sitesQueries` times), the
      ID query, PAUSE, RESUME, the BINON command and ECHOOK, in this order. */
  function CycleTrace(sitesQueries: nat, idQueries: nat, bin: int, binonSends: nat): seq<string> {
    QueryTrace(sitesQueries, idQueries) + BinTrace(bin, binonSends)
  }

  /** The querying start of a cycle: FULLSITES? then QRC?, each `n` times. */
  function QueryTrace(sitesQueries: nat, idQueries: nat): seq<string> {
    Repeat("FULLSITES?", sitesQueries) + Repeat("QRC?", idQueries)
  }

  /** The binning end of a cycle: PAUSE, RESUME, the BINON command `binonSends`
      times, and ECHOOK. */
  function BinTrace(bin: int, binonSends: nat): seq<string> {
    ["PAUSE", "RESUME"] + Repeat(BinonCommand(bin), binonSends) + ["ECHOOK"]
  }

  /** The commands one cycle after the service request sends for the reply script `rs`. */
  function CycleSent(rs: seq<string>, idSet: set<string>): seq<string> {
    var n1 := Tries(rs, 0, "Fullsites");
    var n2 := Tries(rs, n1, "QRC:");
    var id := ExtractId(ReplyAt(rs, n1 + n2 - 1));
    var bin := if id in idSet then 1 else 2;
    var n3 := if StartsWith(ReplyAt(rs, n1 + n2), "E") then 1 else 2;
    CycleTrace(n1, n2, bin, n3)
  }

  /** How many replies that cycle reads. */
  function CycleReads(rs: seq<string>): nat {
    var n1 := Tries(rs, 0, "Fullsites");
    n1 + Tries(rs, n1, "QRC:") + 1
  }

  /** How often a query with one retry is sent for the reply script `rs` at `k`. */
  function Tries(rs: seq<string>, k: nat, prefix: string): nat {
    if StartsWith(ReplyAt(rs, k), prefix) then 1 else 2
  }

  lemma QueryWithRetryAt(b: Bus, rs: seq<string>, k: nat, cmd: string, prefix: string)
    requires b.replies == Drop(rs, k)
    ensures var n := Tries(rs, k, prefix);
      QueryWithRetry(b, cmd, prefix)
        == Reply(ReplyAt(rs, k + n - 1), b.(sent := b.sent + Repeat(cmd, n), replies := Drop(rs, k + n)))
  {
    var first := Exchange(b, cmd);
    ReceiveAt(Send(b, cmd), rs, k);
    if !StartsWith(first.text, prefix) {
      ReceiveAt(Send(first.bus, cmd), rs, k + 1);
      assert b.sent + [cmd] + [cmd] == b.sent + Repeat(cmd, 2);
    } else {
      assert b.sent + [cmd] == b.sent + Repeat(cmd, 1);
    }
  }

  /** One cycle after the service request, in closed form: FULLSITES? is sent once
      when its first reply starts with "Fullsites" and twice otherwise, QRC? once or
      twice by the same rule for "QRC:", then PAUSE and RESUME, then BINON with bin 1
      exactly when the extracted ID is accepted and bin 2 otherwise, a second BINON
      exactly when the BINON reply does not start with "E", and ECHOOK. Status bytes
      are not touched and the receive buffer is cleared once. */
  lemma SortAfterSrqTrace(b: Bus, idSet: set<string>)
    ensures SortAfterSrq(b, idSet)
      == Step(Bus(b.sent + CycleSent(b.replies, idSet), Drop(b.replies, CycleReads(b.replies)), b.statuses, b.clears + 1), Ok)
  {
    var rs := b.replies;
    var n1 := Tries(rs, 0, "Fullsites");
    var n2 := Tries(rs, n1, "QRC:");
    var qrc := IdReply(b);
    assert qrc == Reply(ReplyAt(rs, n1 + n2 - 1), b.(sent := b.sent + QueryTrace(n1, n2), replies := Drop(rs, n1 + n2))) by {
      IdReplyAt(b);
    }
    var id := ExtractId(qrc.text);
    var bin := if id in idSet then 1 else 2;
    var n3 := if StartsWith(ReplyAt(rs, n1 + n2), "E") then 1 else 2;
    var trace := CycleTrace(n1, n2, bin, n3);
    assert BinPart(qrc.bus, id, idSet) == Bus(b.sent + trace, Drop(rs, n1 + n2 + 1), b.statuses, b.clears + 1) by {
      BinPartAt(qrc.bus, id, idSet, rs, n1 + n2);
      Reassociate(b.sent, QueryTrace(n1, n2), BinTrace(bin, n3));
    }
    assert ExtractId(ReplyAt(rs, n1 + n2 - 1)) == id;
    assert CycleSent(rs, idSet) == trace && CycleReads(rs) == n1 + n2 + 1;
  }

  /** The reply to the ID query of a cycle, both queries retried once. */
  function IdReply(b: Bus): Reply {
    QueryWithRetry(QueryWithRetry(b, "FULLSITES?", "Fullsites").bus, "QRC?", "QRC:")
  }

  /** The queries of a cycle read one or two replies each and send their
      commands that often. */
  lemma IdReplyAt(b: Bus)
    ensures var rs := b.replies;
      var n1 := Tries(rs, 0, "Fullsites");
      var n2 := Tries(rs, n1, "QRC:");
      IdReply(b) == Reply(ReplyAt(rs, n1 + n2 - 1),
                          b.(sent := b.sent + QueryTrace(n1, n2), replies := Drop(rs, n1 + n2)))
  {
    var rs := b.replies;
    var n1 := Tries(rs, 0, "Fullsites");
    var n2 := Tries(rs, n1, "QRC:");
    var sites := QueryWithRetry(b, "FULLSITES?", "Fullsites");
    assert b.replies == Drop(rs, 0);
    QueryWithRetryAt(b, rs, 0, "FULLSITES?", "Fullsites");
    QueryWithRetryAt(sites.bus, rs, n1, "QRC?", "QRC:");
    Reassociate(b.sent, Repeat("FULLSITES?", n1), Repeat("QRC?", n2));
  }

  /** The binning end of a cycle: PAUSE, RESUME, the BINON command for bin 1 when
      the ID is accepted and bin 2 otherwise, once more unless its reply starts
      with "E", and ECHOOK. */
  lemma BinPartAt(b: Bus, id: string, idSet: set<string>, rs: seq<string>, k: nat)
    requires b.replies == Drop(rs, k)
    ensures var bin := if id in idSet then 1 else 2;
      var n3 := if StartsWith(ReplyAt(rs, k), "E") then 1 else 2;
      BinPart(b, id, idSet) == Bus(b.sent + BinTrace(bin, n3), Drop(rs, k + 1), b.statuses, b.clears + 1)
  {
    var bin := if id in idSet then 1 else 2;
    var binon := BinonCommand(bin);
    var resumed := Send(Send(b, "PAUSE"), "RESUME");
    ReceiveAt(Send(resumed, binon), rs, k);
    if StartsWith(ReplyAt(rs, k), "E") {
      assert [binon] == Repeat(binon, 1);
    } else {
      assert [binon, binon] == Repeat(binon, 2);
    }
  }

  /** Scenario: with a prompt FULLSITES? reply, a QRC? reply carrying an accepted
      ID (such as "141JWWY043060M") and the handler acknowledging BINON with "E…",
      the cycle sends the pass-bin command (BinonForPassAndFail spells it out) once. */
  lemma AcceptedPartGoesToPassBin(b: Bus, idSet: set<string>, sites: string, id: string,
                                  rest: string, ack: string, more: seq<string>)
    requires StartsWith(sites, "Fullsites") && StartsWith(ack, "E")
    requires id in idSet && ',' !in id
    requires b.replies == [sites, "QRC:" + id + "," + rest, ack] + more
    ensures SortAfterSrq(b, idSet).bus.sent
      == b.sent + ["FULLSITES?", "QRC?", "PAUSE", "RESUME", BinonCommand(1), "ECHOOK"]
  {
    PromptCycleSent(b.replies, idSet, sites, id, rest, ack, more);
    SingleCycleTrace(1);
    SortAfterSrqTrace(b, idSet);
  }

  /** With prompt replies to FULLSITES?, QRC? and BINON, every command of the
      cycle is sent once, and the bin follows from the ID between ':' and ','. */
  lemma PromptCycleSent(rs: seq<string>, idSet: set<string>, sites: string, id: string,
                        rest: string, ack: string, more: seq<string>)
    requires StartsWith(sites, "Fullsites") && StartsWith(ack, "E") && ',' !in id
    requires rs == [sites, "QRC:" + id + "," + rest, ack] + more
    ensures CycleSent(rs, idSet) == CycleTrace(1, 1, if id in idSet then 1 else 2, 1)
  {
    var q := "QRC:" + id + "," + rest;
    assert ReplyAt(rs, 0) == sites && ReplyAt(rs, 1) == q && ReplyAt(rs, 2) == ack;
    assert Tries(rs, 0, "Fullsites") == 1;
    assert Tries(rs, 1, "QRC:") == 1 by {
      assert q[..4] == "QRC:";
    }
    assert ExtractId(q) == id by {
      ExtractIdBetween("QRC", id, rest);
      assert "QRC" + ":" == "QRC:";
      assert "QRC" + ":" + id + "," + rest == q;
    }
  }

  /** A cycle in which every command is sent once. */
  lemma SingleCycleTrace(bin: int)
    ensures CycleTrace(1, 1, bin, 1) == ["FULLSITES?", "QRC?", "PAUSE", "RESUME", BinonCommand(bin), "ECHOOK"]
  {
    assert Repeat("FULLSITES?", 1) == ["FULLSITES?"];
    assert Repeat("QRC?", 1) == ["QRC?"];
    assert Repeat(BinonCommand(bin), 1) == [BinonCommand(bin)];
  }

  /** The same cycle with an ID that is not accepted sends the fail-bin command. */
  lemma RejectedPartGoesToFailBin(b: Bus, idSet: set<string>, sites: string, id: string,
                                  rest: string, ack: string, more: seq<string>)
    requires StartsWith(sites, "Fullsites") && StartsWith(ack, "E")
    requires id !in idSet && ',' !in id
    requires b.replies == [sites, "QRC:" + id + "," + rest, ack] + more
    ensures SortAfterSrq(b, idSet).bus.sent
      == b.sent + ["FULLSITES?", "QRC?", "PAUSE", "RESUME", BinonCommand(2), "ECHOOK"]
  {
    PromptCycleSent(b.replies, idSet, sites, id, rest, ack, more);
    SingleCycleTrace(2);
    SortAfterSrqTrace(b, idSet);
  }

  /** Scenario: a first FULLSITES? reply that does not start with "Fullsites" makes
      the driver ask exactly once more, and it proceeds to QRC? whatever the second
      reply is. */
  lemma SitesQueryRetriedOnce(b: Bus, idSet: set<string>, first: string, second: string, more: seq<string>)
    requires !StartsWith(first, "Fullsites")
    requires b.replies == [first, second] + more
    ensures var sent := SortAfterSrq(b, idSet).bus.sent;
      |sent| > |b.sent| + 2 && sent[|b.sent|..|b.sent| + 3] == ["FULLSITES?", "FULLSITES?", "QRC?"]
  {
    assert ReplyAt(b.replies, 0) == first;
    RetriedCycleSent(b.replies, idSet);
    SortAfterSrqTrace(b, idSet);
    SliceAfter(b.sent, CycleSent(b.replies, idSet), 3);
  }

  /** A cycle whose sites query is sent twice starts with FULLSITES? twice and QRC?. */
  lemma RetriedCycleSent(rs: seq<string>, idSet: set<string>)
    requires !StartsWith(ReplyAt(rs, 0), "Fullsites")
    ensures |CycleSent(rs, idSet)| >= 3
    ensures CycleSent(rs, idSet)[..3] == ["FULLSITES?", "FULLSITES?", "QRC?"]
  {
    var n2 := Tries(rs, 2, "QRC:");
    var bin := if ExtractId(ReplyAt(rs, n2 + 1)) in idSet then 1 else 2;
    var n3 := if StartsWith(ReplyAt(rs, n2 + 2), "E") then 1 else 2;
    var t := CycleTrace(2, n2, bin, n3);
    assert CycleSent(rs, idSet) == t;
    assert t[0] == "FULLSITES?" && t[1] == "FULLSITES?" && t[2] == "QRC?";
  }

  // ---------------------------------------------------------------------------
  // Polling for the part

  /** How many 0x44 bytes a status sequence holds. */
  function EmptyChecks(statuses: seq<bv8>): nat
    decreases |statuses|
  {
    if statuses == [] then 0
    else (if statuses[0] == EMPTY_CHECK then 1 else 0) + EmptyChecks(statuses[1..])
  }

  /** The commands `n` empty-socket acknowledgements send while waiting for the part. */
  function AckTrace(n: nat): (r: seq<string>)
    ensures |r| == 2 * n
    decreases n
  {
    if n == 0 then [] else ["++read", "ECHOOK"] + AckTrace(n - 1)
  }

  /** The wait ends at the first 0x41: bytes before it are skipped, except that each
      0x44 among them is acknowledged with `++read` and ECHOOK against one
      CHECKEMPTY reply. With no 0x44 before the 0x41, nothing is sent at all. */
  lemma {:induction false} AwaitPartReadyAt(b: Bus, pre: seq<bv8>, post: seq<bv8>)
    requires b.statuses == pre + [PART_READY] + post
    requires PART_READY !in pre
    requires EmptyChecks(pre) <= |b.replies|
    requires forall k :: 0 <= k < EmptyChecks(pre) ==> b.replies[k] == "CHECKEMPTY"
    ensures AwaitPartReady(b)
      == Step(Bus(b.sent + AckTrace(EmptyChecks(pre)), b.replies[EmptyChecks(pre)..], post, b.clears), Ok)
    decreases |pre|
  {
    if pre == [] {
      assert b.statuses[1..] == post;
    } else {
      var b1 := b.(statuses := b.statuses[1..]);
      assert b.statuses[0] == pre[0];
      assert b1.statuses == pre[1..] + [PART_READY] + post;
      if pre[0] == EMPTY_CHECK {
        var ack := EmptySocketAck(b1, true);
        assert ack.outcome == Ok;
        assert ack.bus == Bus(b.sent + ["++read", "ECHOOK"], b.replies[1..], b1.statuses, b.clears);
        AwaitPartReadyAt(ack.bus, pre[1..], post);
        assert b.replies[1..][EmptyChecks(pre[1..])..] == b.replies[EmptyChecks(pre)..];
        assert b.sent + ["++read", "ECHOOK"] + AckTrace(EmptyChecks(pre[1..]))
          == b.sent + AckTrace(EmptyChecks(pre));
      } else {
        assert Classify(pre[0]) != EmptyCheck && Classify(pre[0]) != PartReady;
        AwaitPartReadyAt(b1, pre[1..], post);
      }
    }
  }

  /** Only a 0x41 ends the wait normally: when it does, the byte that ended it is
      0x41, no 0x41 came before it, and the unread status bytes are left as they were. */
  lemma {:induction false} AwaitPartReadyOnlyAtPartReady(b: Bus)
    ensures var s := AwaitPartReady(b);
      var used := |b.statuses| - |s.bus.statuses|;
      s.outcome.Ok? ==>
        && 0 < used <= |b.statuses|
        && b.statuses[used - 1] == PART_READY
        && PART_READY !in b.statuses[..used - 1]
        && s.bus.statuses == b.statuses[used..]
    decreases |b.statuses|
  {
    var s := AwaitPartReady(b);
    if b.statuses != [] && s.outcome.Ok? {
      var status := b.statuses[0];
      var b1 := b.(statuses := b.statuses[1..]);
      if Classify(status) == PartReady {
        assert b.statuses[..0] == [];
      } else {
        var next := if Classify(status) == EmptyCheck then EmptySocketAck(b1, true).bus else b1;
        assert next.statuses == b.statuses[1..];
        assert s == AwaitPartReady(next);
        AwaitPartReadyOnlyAtPartReady(next);
        var used := |b.statuses| - |s.bus.statuses|;
        assert b.statuses[..used - 1] == [status] + next.statuses[..used - 2];
      }
    }
  }

  /** A 0x44 whose reply is not CHECKEMPTY stops the wait with that mismatch after
      `++read`, before any ECHOOK. */
  lemma AwaitPartReadyCheckEmptyMismatch(b: Bus)
    requires b.statuses != [] && b.statuses[0] == EMPTY_CHECK
    requires ReplyAt(b.replies, 0) != "CHECKEMPTY"
    ensures AwaitPartReady(b)
      == Step(b.(sent := b.sent + ["++read"], statuses := b.statuses[1..], replies := Drop(b.replies, 1)),
              Mismatch("CHECKEMPTY", ReplyAt(b.replies, 0)))
  {
  }

  /** With the request already received, the cycle polls nothing. */
  lemma SrqReceivedSkipsPolling(b: Bus, idSet: set<string>)
    ensures SortCycleSpec(b, idSet, true).bus.statuses == b.statuses
    ensures SortCycleSpec(b, idSet, true).outcome == Ok
  {
    SortAfterSrqTrace(b, idSet);
  }

  // ---------------------------------------------------------------------------
  // The configuration handshake

  /** The commands of a successful configuration, in order. */
  function ConfigTrace(gpibAddr: string): seq<string> {
    ["++addr " + gpibAddr, "++clr"] + ConfigCommands + ["REQUEST,CHECKEMPTY", "ECHOOK"]
  }

  /** The wait of `configure` ends at the first 0x44 and sends nothing. */
  lemma {:induction false} AwaitEmptySocketAt(b: Bus, pre: seq<bv8>, post: seq<bv8>)
    requires b.statuses == pre + [EMPTY_CHECK] + post
    requires EMPTY_CHECK !in pre
    ensures AwaitEmptySocket(b) == Step(b.(statuses := post), Ok)
    decreases |pre|
  {
    if pre == [] {
      assert b.statuses[1..] == post;
    } else {
      assert b.statuses[0] == pre[0];
      assert b.statuses[1..] == pre[1..] + [EMPTY_CHECK] + post;
      AwaitEmptySocketAt(b.(statuses := b.statuses[1..]), pre[1..], post);
    }
  }

  /** Without a 0x44 the wait of `configure` never ends (here: runs out of status bytes). */
  lemma {:induction false} AwaitEmptySocketExhausted(b: Bus)
    requires EMPTY_CHECK !in b.statuses
    ensures AwaitEmptySocket(b) == Step(b.(statuses := []), StatusesExhausted)
    decreases |b.statuses|
  {
    if b.statuses != [] {
      assert b.statuses[0] != EMPTY_CHECK;
      assert EMPTY_CHECK !in b.statuses[1..] by {
        forall k | 0 <= k < |b.statuses| - 1 ensures b.statuses[1..][k] != EMPTY_CHECK {
          assert b.statuses[1..][k] == b.statuses[k + 1];
        }
      }
      AwaitEmptySocketExhausted(b.(statuses := b.statuses[1..]));
    }
  }

  /** A handler that acknowledges every step word for word, asks for the
      empty-socket check and then says CHECKEMPTY is configured with exactly the
      commands of ConfigTrace. */
  lemma ConfigureSucceeds(b: Bus, gpibAddr: string, pre: seq<bv8>, post: seq<bv8>, more: seq<string>)
    requires b.replies == ConfigAcks + ["CHECKEMPTY"] + more
    requires b.statuses == pre + [EMPTY_CHECK] + post && EMPTY_CHECK !in pre
    ensures ConfigureSpec(b, gpibAddr) == Step(Bus(b.sent + ConfigTrace(gpibAddr), more, post, b.clears + 1), Ok)
  {
    var b0 := Cleared(Send(Send(b, "++addr " + gpibAddr), "++clr"));
    var s1 := Expect(b0, ConfigCommands[0], ConfigAcks[0]);
    var s2 := Expect(s1.bus, ConfigCommands[1], ConfigAcks[1]);
    var s3 := Expect(s2.bus, ConfigCommands[2], ConfigAcks[2]);
    var s4 := Expect(s3.bus, ConfigCommands[3], ConfigAcks[3]);
    assert s4.outcome == Ok && s4.bus.replies == ["CHECKEMPTY"] + more;
    var polling := Send(s4.bus, "REQUEST,CHECKEMPTY");
    AwaitEmptySocketAt(polling, pre, post);
    assert s4.bus.sent == b.sent + ["++addr " + gpibAddr, "++clr"] + ConfigCommands;
  }

  /** The handshake stops at the first reply that is not the expected
      acknowledgement, reporting it; nothing after that command is sent and no
      status byte is polled. */
  lemma ConfigureStopsAtFirstMismatch(b: Bus, gpibAddr: string, k: nat)
    requires k < 4
    requires forall j :: 0 <= j < k ==> ReplyAt(b.replies, j) == ConfigAcks[j]
    requires ReplyAt(b.replies, k) != ConfigAcks[k]
    ensures ConfigureSpec(b, gpibAddr)
      == Step(Bus(b.sent + ["++addr " + gpibAddr, "++clr"] + ConfigCommands[..k + 1],
                  Drop(b.replies, k + 1), b.statuses, b.clears + 1),
              Mismatch(ConfigAcks[k], ReplyAt(b.replies, k)))
  {
    var rs := b.replies;
    var x := b.sent + ["++addr " + gpibAddr, "++clr"];
    var b0 := Cleared(Send(Send(b, "++addr " + gpibAddr), "++clr"));
    assert b0 == Bus(x + ConfigCommands[..0], Drop(rs, 0), b.statuses, b.clears + 1) by {
      Reassociate(b.sent, ["++addr " + gpibAddr], ["++clr"]);
      assert ["++addr " + gpibAddr] + ["++clr"] == ["++addr " + gpibAddr, "++clr"];
      assert x + ConfigCommands[..0] == x;
    }
    var s1 := Expect(b0, ConfigCommands[0], ConfigAcks[0]);
    ExpectAt(b0, x, rs, 0);
    if k == 0 { return; }
    var s2 := Expect(s1.bus, ConfigCommands[1], ConfigAcks[1]);
    ExpectAt(s1.bus, x, rs, 1);
    if k == 1 { return; }
    var s3 := Expect(s2.bus, ConfigCommands[2], ConfigAcks[2]);
    ExpectAt(s2.bus, x, rs, 2);
    if k == 2 { return; }
    ExpectAt(s3.bus, x, rs, 3);
  }

  /** The j-th handshake step after the first j have been acknowledged: the
      j-th command is sent and its reply decides the outcome. */
  lemma ExpectAt(bus: Bus, x: seq<string>, rs: seq<string>, j: nat)
    requires j < 4
    requires bus.sent == x + ConfigCommands[..j] && bus.replies == Drop(rs, j)
    ensures var r := ReplyAt(rs, j);
      Expect(bus, ConfigCommands[j], ConfigAcks[j])
        == Step(bus.(sent := x + ConfigCommands[..j + 1], replies := Drop(rs, j + 1)),
                if r == ConfigAcks[j] then Ok else Mismatch(ConfigAcks[j], r))
  {
    ReceiveAt(Send(bus, ConfigCommands[j]), rs, j);
    PrefixSnoc(x, ConfigCommands, j);
  }

  // ---------------------------------------------------------------------------
  // The job

  /** `main` treats a missing ID set as the empty set. */
  lemma RunJobMissingIdsAreEmpty(b: Bus, gpibAddr: string, numParts: int, handlerReady: bool)
    ensures RunJobSpec(b, gpibAddr, numParts, None, handlerReady)
      == RunJobSpec(b, gpibAddr, numParts, Some({}), handlerReady)
  {
  }

  /** With the empty ID set no part is ever sent to the pass bin. */
  lemma EmptySetFailsEveryPart(b: Bus)
    ensures BinonCommand(1) !in SortAfterSrq(b, {}).bus.sent[|b.sent|..]
  {
    SortAfterSrqTrace(b, {});
    var t := CycleSent(b.replies, {});
    assert (b.sent + t)[|b.sent|..] == t;
    EmptySetCycleSent(b.replies);
  }

  /** Every BINON of a cycle with the empty ID set is for bin 2. */
  lemma EmptySetCycleSent(rs: seq<string>)
    ensures BinonCommand(1) !in CycleSent(rs, {})
  {
    var pass := BinonCommand(1);
    assert pass != BinonCommand(2) && |pass| > 10 by {
      BinonForPassAndFail();
    }
    var n1 := Tries(rs, 0, "Fullsites");
    var n2 := Tries(rs, n1, "QRC:");
    var n3 := if StartsWith(ReplyAt(rs, n1 + n2), "E") then 1 else 2;
    assert CycleSent(rs, {}) == CycleTrace(n1, n2, 2, n3);
    RepeatOmits("FULLSITES?", n1, pass);
    RepeatOmits("QRC?", n2, pass);
    RepeatOmits(BinonCommand(2), n3, pass);
    assert pass !in ["PAUSE", "RESUME"] && pass !in ["ECHOOK"] by {
      assert |"PAUSE"| == 5 && |"RESUME"| == 6 && |"ECHOOK"| == 6;
    }
    NotInEither(pass, ["PAUSE", "RESUME"], Repeat(BinonCommand(2), n3), ["ECHOOK"]);
    NotInBoth(pass, Repeat("FULLSITES?", n1), Repeat("QRC?", n2));
    NotInBoth(pass, QueryTrace(n1, n2), BinTrace(2, n3));
  }

  lemma RepeatOmits(cmd: string, n: nat, other: string)
    requires other != cmd
    ensures other !in Repeat(cmd, n)
  {
  }
}
