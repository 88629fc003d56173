/** `list_devices` of listDevicesAR488.py: one monitor asks the adapter for
    its listeners with `++fndl` and takes the non-blank lines of the answer as
    device addresses; a second monitor then addresses each device in turn,
    asks it `*IDN?` and records every non-empty answer under the device's
    VISA-style resource name. What the reader thread delivers is given as
    parameters: `fndlReply` after `++fndl`, and for the k-th device
    `echoes[k]` after its `++addr` and `answers[k]` after its `*IDN?`. */
module ListDevices {
  import opened PyStr
  import opened Instrument
  import opened Monitor
  import opened Seqs

  // ---------------------------------------------------------------------------
  // The device list

  /** `[line.strip() for line in lines if line.strip()]`. */
  function CleanLines(lines: seq<string>): (r: seq<string>)
    ensures |r| <= |lines|
    ensures forall k :: 0 <= k < |r| ==> r[k] != "" && NoSpaceAtEnds(r[k])
    decreases |lines|
  {
    if lines == [] then []
    else
      var line := Strip(lines[0]);
      (if line != "" then [line] else []) + CleanLines(lines[1..])
  }

  /** The addresses `list_devices` reads from the reply to `++fndl`:
      `get_buffer()` strips the reply, `splitlines` cuts it into lines, and
      the blank lines are dropped. */
  function ListedDevices(fndlReply: string): (devices: seq<string>)
    ensures |devices| <= |fndlReply|
    ensures forall k :: 0 <= k < |devices| ==> devices[k] != "" && NoSpaceAtEnds(devices[k])
  {
    CleanLines(SplitLines(Strip(fndlReply)))
  }

  /** One line is kept, stripped, exactly when it is not blank. */
  lemma CleanLinesOne(line: string)
    ensures CleanLines([line]) == if Strip(line) != "" then [Strip(line)] else []
  {
    assert [line][1..] == [];
  }

  /** Cleaning works line by line: cleaning two runs of lines one after the
      other is cleaning each of them, in order. */
  lemma {:induction false} CleanLinesAppend(a: seq<string>, b: seq<string>)
    ensures CleanLines(a + b) == CleanLines(a) + CleanLines(b)
    decreases |a|
  {
    if a == [] {
      assert a + b == b;
    } else {
      var head := if Strip(a[0]) != "" then [Strip(a[0])] else [];
      assert (a + b)[0] == a[0];
      assert (a + b)[1..] == a[1..] + b;
      CleanLinesAppend(a[1..], b);
      Reassociate(head, CleanLines(a[1..]), CleanLines(b));
    }
  }

  /** Every line that is not blank is kept, stripped, with the kept lines
      before it ahead of it. */
  lemma CleanLinesKeeps(lines: seq<string>, k: nat)
    requires k < |lines| && Strip(lines[k]) != ""
    ensures CleanLines(lines) == CleanLines(lines[..k]) + [Strip(lines[k])] + CleanLines(lines[k + 1..])
  {
    var front, line, back := lines[..k], lines[k], lines[k + 1..];
    CutAround(lines, k);
    assert CleanLines(lines) == CleanLines(front + [line]) + CleanLines(back) by {
      CleanLinesAppend(front + [line], back);
    }
    assert CleanLines(front + [line]) == CleanLines(front) + [Strip(line)] by {
      CleanLinesAppend(front, [line]);
      CleanLinesOne(line);
    }
  }

  /** Lines that are already stripped and not blank pass through unchanged. */
  lemma {:induction false} CleanLinesOfClean(lines: seq<string>)
    requires forall k :: 0 <= k < |lines| ==> lines[k] != "" && NoSpaceAtEnds(lines[k])
    ensures CleanLines(lines) == lines
    decreases |lines|
  {
    if lines != [] {
      StripFixedPoint(lines[0]);
      CleanLinesOfClean(lines[1..]);
      assert lines == [lines[0]] + lines[1..];
    }
  }

  /** Joining non-empty lines without line breaks by '\n' and splitting the
      result at its line breaks gives the lines back. */
  lemma {:induction false} SplitLinesJoin(lines: seq<string>)
    requires forall k :: 0 <= k < |lines| ==> lines[k] != "" && NoLineBreak(lines[k])
    ensures SplitLines(Join(lines, '\n')) == lines
    decreases |lines|
  {
    if |lines| == 1 {
      SplitLinesOne(lines[0]);
    } else if |lines| > 1 {
      var s := Join(lines, '\n');
      JoinFirst(lines, '\n');
      SplitLinesAt(s, |lines[0]|);
      SplitLinesJoin(lines[1..]);
      assert lines == [lines[0]] + lines[1..];
    }
  }

  /** A joined list starts with its first element and ends with its last. */
  lemma {:induction false} JoinEnds(lines: seq<string>, sep: char)
    requires |lines| > 0 && forall k :: 0 <= k < |lines| ==> lines[k] != ""
    ensures |Join(lines, sep)| > 0
    ensures Join(lines, sep)[0] == lines[0][0]
    ensures Join(lines, sep)[|Join(lines, sep)| - 1] == lines[|lines| - 1][|lines[|lines| - 1]| - 1]
    decreases |lines|
  {
    if |lines| > 1 {
      var rest := Join(lines[1..], sep);
      JoinEnds(lines[1..], sep);
      assert Join(lines, sep) == lines[0] + [sep] + rest;
    }
  }

  /** Stripped, non-empty lines joined by '\n' have nothing to strip. */
  lemma JoinedListingIsStripped(addresses: seq<string>)
    requires forall k :: 0 <= k < |addresses| ==> addresses[k] != "" && NoSpaceAtEnds(addresses[k])
    ensures Strip(Join(addresses, '\n')) == Join(addresses, '\n')
  {
    var s := Join(addresses, '\n');
    if addresses != [] {
      JoinEnds(addresses, '\n');
      assert NoSpaceAtEnds(s);
    }
    StripFixedPoint(s);
  }

  /** A `++fndl` reply that lists stripped, non-empty addresses one per line
      yields exactly those addresses, in order. */
  lemma ListedDevicesOfListing(addresses: seq<string>)
    requires forall k :: 0 <= k < |addresses| ==>
      addresses[k] != "" && NoSpaceAtEnds(addresses[k]) && NoLineBreak(addresses[k])
    ensures ListedDevices(Join(addresses, '\n')) == addresses
  {
    JoinedListingIsStripped(addresses);
    SplitLinesJoin(addresses);
    CleanLinesOfClean(addresses);
  }

  // ---------------------------------------------------------------------------
  // The identification table

  /** The dictionary key of a device: its VISA resource name on board 0. */
  function DeviceKey(device: string): (key: string)
    ensures |key| == |device| + 14
  {
    "GPIB0::" + device + "::INSTR"
  }

  /** The address a key was made from. */
  function KeyDevice(key: string): string
    requires |key| >= 14
  {
    key[7..|key| - 7]
  }

  /** The address can be read back from its key. */
  lemma KeyDeviceOfKey(device: string)
    ensures KeyDevice(DeviceKey(device)) == device
  {
    var key := DeviceKey(device);
    assert key == "GPIB0::" + device + "::INSTR";
    assert key[7..|key| - 7] == device;
  }

  /** Different addresses are recorded under different keys. */
  lemma DeviceKeyInjective(d1: string, d2: string)
    requires DeviceKey(d1) == DeviceKey(d2)
    ensures d1 == d2
  {
    KeyDeviceOfKey(d1);
    KeyDeviceOfKey(d2);
  }

  /** What the k-th device answered, as `list_devices` records it: the buffer
      stripped by `get_buffer` (the second `strip` changes nothing). */
  function Answer(answers: seq<string>, k: nat): string {
    Strip(ReplyAt(answers, k))
  }

  /** A dictionary filled in order: the k-th key gets the k-th value when
      that value is not empty, a later value replacing an earlier one under
      the same key. */
  function Table(keys: seq<string>, values: seq<string>): map<string, string>
    requires |keys| == |values|
    decreases |keys|
  {
    if keys == [] then map[]
    else
      var n := |keys| - 1;
      var table := Table(keys[..n], values[..n]);
      if values[n] != "" then table[keys[n] := values[n]] else table
  }

  /** The table has at most one entry per position, and every entry is one of
      the non-empty values; stripped values give stripped entries. */
  lemma {:induction false} TableEntries(keys: seq<string>, values: seq<string>)
    requires |keys| == |values|
    ensures |Table(keys, values)| <= |keys|
    ensures forall key :: key in Table(keys, values) ==> Table(keys, values)[key] != ""
    ensures (forall k :: 0 <= k < |values| ==> NoSpaceAtEnds(values[k]))
      ==> forall key :: key in Table(keys, values) ==> NoSpaceAtEnds(Table(keys, values)[key])
    decreases |keys|
  {
    if keys != [] {
      var n := |keys| - 1;
      TableEntries(keys[..n], values[..n]);
      if forall k :: 0 <= k < |values| ==> NoSpaceAtEnds(values[k]) {
        assert forall k :: 0 <= k < n ==> values[..n][k] == values[k];
      }
    }
  }

  /** The keys of `devices`, in order. */
  function DeviceKeys(devices: seq<string>): (keys: seq<string>)
    ensures |keys| == |devices|
    ensures forall k :: 0 <= k < |devices| ==> keys[k] == DeviceKey(devices[k])
    decreases |devices|
  {
    if devices == [] then []
    else DeviceKeys(devices[..|devices| - 1]) + [DeviceKey(devices[|devices| - 1])]
  }

  /** The answers of the first `n` devices. */
  function Answers(answers: seq<string>, n: nat): (values: seq<string>)
    ensures |values| == n
  {
    seq(n, k requires 0 <= k < n => Answer(answers, k))
  }

  /** The dictionary `list_devices` returns after querying `devices`. */
  function DeviceTable(devices: seq<string>, answers: seq<string>): (table: map<string, string>)
    ensures |table| <= |devices|
    ensures forall key :: key in table ==> table[key] != "" && NoSpaceAtEnds(table[key])
  {
    TableEntries(DeviceKeys(devices), Answers(answers, |devices|));
    Table(DeviceKeys(devices), Answers(answers, |devices|))
  }

  /** The two commands written for one device. */
  function DeviceQuery(device: string): (cmds: seq<string>)
    ensures |cmds| == 2
  {
    ["++addr " + device, "*IDN?"]
  }

  /** The commands the second monitor writes for `devices`, in order. */
  function IdentifyCommands(devices: seq<string>): (cmds: seq<string>)
    ensures |cmds| == 2 * |devices|
    decreases |devices|
  {
    if devices == [] then []
    else
      var n := |devices| - 1;
      IdentifyCommands(devices[..n]) + DeviceQuery(devices[n])
  }

  /** Every position with a non-empty value leaves its key in the table. */
  lemma {:induction false} TableHasAnswered(keys: seq<string>, values: seq<string>, k: nat)
    requires |keys| == |values| && k < |keys| && values[k] != ""
    ensures keys[k] in Table(keys, values)
    decreases |keys|
  {
    var n := |keys| - 1;
    if k < n {
      assert keys[..n][k] == keys[k] && values[..n][k] == values[k];
      TableHasAnswered(keys[..n], values[..n], k);
    }
  }

  /** Every key in the table comes from a position with a non-empty value. */
  lemma {:induction false} TableKeyAnswered(keys: seq<string>, values: seq<string>, key: string)
    requires |keys| == |values| && key in Table(keys, values)
    ensures exists k :: 0 <= k < |keys| && keys[k] == key && values[k] != ""
    decreases |keys|
  {
    var n := |keys| - 1;
    var init, front := keys[..n], values[..n];
    if key in Table(init, front) {
      TableKeyAnswered(init, front, key);
      var k :| 0 <= k < n && init[k] == key && front[k] != "";
      assert keys[k] == init[k] && values[k] == front[k];
    } else {
      assert keys[n] == key && values[n] != "";
    }
  }

  /** A key is in the table exactly when some position carries it with a
      non-empty value. */
  lemma TableKeys(keys: seq<string>, values: seq<string>, key: string)
    requires |keys| == |values|
    ensures key in Table(keys, values)
      <==> exists k :: 0 <= k < |keys| && keys[k] == key && values[k] != ""
  {
    if key in Table(keys, values) {
      TableKeyAnswered(keys, values, key);
    }
    forall k | 0 <= k < |keys| && keys[k] == key && values[k] != ""
      ensures key in Table(keys, values)
    {
      TableHasAnswered(keys, values, k);
    }
  }

  /** With no other position carrying the same key, the k-th key's entry is
      the k-th value. */
  lemma {:induction false} TableValue(keys: seq<string>, values: seq<string>, k: nat)
    requires |keys| == |values| && k < |keys| && values[k] != ""
    requires forall j :: 0 <= j < |keys| && j != k ==> keys[j] != keys[k]
    ensures keys[k] in Table(keys, values)
    ensures Table(keys, values)[keys[k]] == values[k]
    decreases |keys|
  {
    var n := |keys| - 1;
    if k < n {
      var init, front := keys[..n], values[..n];
      assert init[k] == keys[k] && front[k] == values[k];
      assert forall j :: 0 <= j < n && j != k ==> init[j] != init[k];
      TableValue(init, front, k);
    }
  }

  /** The key of every entry comes from a device that answered, and every
      device that answered has an entry. */
  lemma DeviceTableKeys(devices: seq<string>, answers: seq<string>, key: string)
    ensures key in DeviceTable(devices, answers)
      <==> exists k :: 0 <= k < |devices| && key == DeviceKey(devices[k]) && Answer(answers, k) != ""
  {
    var keys, values := DeviceKeys(devices), Answers(answers, |devices|);
    TableKeys(keys, values, key);
    if key in DeviceTable(devices, answers) {
      var k :| 0 <= k < |keys| && keys[k] == key && values[k] != "";
      assert key == DeviceKey(devices[k]) && Answer(answers, k) != "";
    }
    forall k | 0 <= k < |devices| && key == DeviceKey(devices[k]) && Answer(answers, k) != ""
      ensures key in DeviceTable(devices, answers)
    {
      assert keys[k] == key && values[k] != "";
    }
  }

  /** With distinct addresses, the entry of a device that answered holds its answer. */
  lemma DeviceTableValue(devices: seq<string>, answers: seq<string>, k: nat)
    requires k < |devices| && Answer(answers, k) != ""
    requires forall j :: 0 <= j < |devices| && j != k ==> devices[j] != devices[k]
    ensures DeviceKey(devices[k]) in DeviceTable(devices, answers)
    ensures DeviceTable(devices, answers)[DeviceKey(devices[k])] == Answer(answers, k)
  {
    var keys, values := DeviceKeys(devices), Answers(answers, |devices|);
    forall j | 0 <= j < |keys| && j != k
      ensures keys[j] != keys[k]
    {
      if keys[j] == keys[k] {
        DeviceKeyInjective(devices[j], devices[k]);
      }
    }
    TableValue(keys, values, k);
  }

  /** The two commands for the k-th device sit at positions 2k and 2k+1. */
  lemma {:induction false} IdentifyCommandsAt(devices: seq<string>, k: nat)
    requires k < |devices|
    ensures 2 * k + 2 <= |IdentifyCommands(devices)|
    ensures IdentifyCommands(devices)[2 * k..2 * k + 2] == DeviceQuery(devices[k])
    decreases |devices|
  {
    var n := |devices| - 1;
    var init := devices[..n];
    var q := IdentifyCommands(init);
    var t := DeviceQuery(devices[n]);
    assert IdentifyCommands(devices) == q + t;
    if k < n {
      assert q[2 * k..2 * k + 2] == DeviceQuery(devices[k]) by {
        IdentifyCommandsAt(init, k);
        assert init[k] == devices[k];
      }
      SliceOfFront(q, t, 2 * k, 2 * k + 2);
    } else {
      assert |q| == 2 * k;
      SliceOfBack(q, t);
    }
  }

  lemma TableSnoc(devices: seq<string>, answers: seq<string>, i: nat)
    requires i < |devices|
    ensures DeviceTable(devices[..i + 1], answers)
      == (var table := DeviceTable(devices[..i], answers);
          if Answer(answers, i) != "" then table[DeviceKey(devices[i]) := Answer(answers, i)] else table)
    ensures IdentifyCommands(devices[..i + 1]) == IdentifyCommands(devices[..i]) + DeviceQuery(devices[i])
  {
    assert devices[..i + 1][..i] == devices[..i];
    var keys := DeviceKeys(devices[..i + 1]);
    assert keys[..i] == DeviceKeys(devices[..i]);
    assert Answers(answers, i + 1)[..i] == Answers(answers, i);
  }

  // ---------------------------------------------------------------------------
  // The routine

  /** Addresses one device and asks who it is; the answer is what arrived
      after `*IDN?`, whatever arrived after `++addr`. `get_buffer` does not
      clear the buffer, so the unstripped answer stays in it. */
  method QueryDevice(m: Ar488Monitor, device: string, echo: string, answer: string)
    returns (response: string)
    requires !m.stopReader
    modifies m
    ensures response == Strip(answer)
    ensures m.buffer == answer
    ensures m.sent == old(m.sent) + DeviceQuery(device)
    ensures !m.stopReader && m.portOpen == old(m.portOpen)
  {
    m.Write("++addr " + device);
    m.Receive(echo);
    m.Write("*IDN?");
    m.Receive(answer);
    assert m.buffer == answer;
    response := m.GetBuffer();
    StripIdempotent(answer);
    response := Strip(response);
    assert m.sent == old(m.sent) + ["++addr " + device] + ["*IDN?"];
    Reassociate(old(m.sent), ["++addr " + device], ["*IDN?"]);
  }

  /** The first half of `list_devices`: a fresh monitor writes `++fndl`, the
      reply arrives, the buffer is read and split, and the monitor is closed. */
  method FindDevices(fndlReply: string) returns (devices: seq<string>, finder: Ar488Monitor)
    ensures devices == ListedDevices(fndlReply)
    ensures finder.sent == ["++fndl"] && finder.appendCr && !finder.appendLf
    ensures finder.stopReader && !finder.portOpen
  {
    finder := new Ar488Monitor(true, false);
    finder.Write("++fndl");
    finder.Receive(fndlReply);
    assert finder.buffer == fndlReply;
    var listing := finder.GetBuffer();
    devices := CleanLines(SplitLines(listing));
    finder.Close();
  }

  /** The second half: a fresh monitor queries every device in order and the
      dictionary collects the non-empty answers. */
  method IdentifyDevices(devices: seq<string>, echoes: seq<string>, answers: seq<string>)
    returns (table: map<string, string>, querier: Ar488Monitor)
    ensures table == DeviceTable(devices, answers)
    ensures querier.sent == IdentifyCommands(devices) && querier.appendCr && !querier.appendLf
    ensures querier.stopReader && !querier.portOpen
  {
    querier := new Ar488Monitor(true, false);
    table := map[];
    for i := 0 to |devices|
      invariant table == DeviceTable(devices[..i], answers)
      invariant querier.sent == IdentifyCommands(devices[..i])
      invariant !querier.stopReader && querier.portOpen
      invariant querier.appendCr && !querier.appendLf
    {
      var device := devices[i];
      var response := QueryDevice(querier, device, ReplyAt(echoes, i), ReplyAt(answers, i));
      if response != "" {
        table := table[DeviceKey(device) := response];
      }
      TableSnoc(devices, answers, i);
    }
    assert devices[..|devices|] == devices;
    querier.Close();
  }

  /** `list_devices`: the devices listed after `++fndl`, each queried once;
      with no device listed the second monitor writes nothing. */
  method ListDevices(fndlReply: string, echoes: seq<string>, answers: seq<string>)
    returns (table: map<string, string>, finder: Ar488Monitor, querier: Ar488Monitor)
    ensures table == DeviceTable(ListedDevices(fndlReply), answers)
    ensures finder.sent == ["++fndl"] && querier.sent == IdentifyCommands(ListedDevices(fndlReply))
    ensures finder.appendCr && !finder.appendLf && querier.appendCr && !querier.appendLf
    ensures finder.stopReader && !finder.portOpen && querier.stopReader && !querier.portOpen
  {
    var devices;
    devices, finder := FindDevices(fndlReply);
    table, querier := IdentifyDevices(devices, echoes, answers);
  }
}
