/** The Bluetooth front end of rpiSort.py: a phone writes the handler's GPIB
    address to one characteristic and the list of accepted part IDs, in
    chunks, to another; the chunks pile up in a module-wide text buffer until
    the end-of-input key arrives, and then the buffer is split on commas into
    the ID set and the service starts a sort job with one part per ID.
    Starting a job is recorded in the service's job log rather than run; what
    running it does is the `RunJob` of handler.dfy. */
module RpiSort {
  import opened PyStr
  import opened Instrument
  import opened Seqs

  /** The text that ends an ID transfer. */
  const EoiKey: string := "**!@ble-eoi@!**"

  /** A started job: the arguments `main` receives. */
  datatype Job = Job(gpibAddr: string, numParts: nat, idSet: set<string>)

  /** Everything the service and the ID characteristic remember between writes. */
  datatype Link = Link(buffer: string, address: Option<string>, ids: Option<set<string>>, jobs: seq<Job>)

  /** `set(xs)`: the distinct elements of a list. */
  function SetOf(xs: seq<string>): (r: set<string>)
    ensures forall x :: x in r <==> x in xs
    ensures |r| <= |xs|
    ensures xs != [] ==> r != {}
  {
    if xs == [] then {} else SetOf(xs[..|xs| - 1]) + {xs[|xs| - 1]}
  }

  /** The number of times `c` occurs in `s`. */
  function Occurrences(s: string, c: char): nat
  {
    if s == [] then 0 else Occurrences(s[..|s| - 1], c) + (if s[|s| - 1] == c then 1 else 0)
  }

  /** The ID set a buffer stands for: the set of its comma-separated pieces. */
  function IdSet(buffer: string): set<string>
  {
    SetOf(Split(buffer, ','))
  }

  /** A written payload as `WriteValue` reads it: each byte one character, stripped. */
  function Incoming(value: seq<bv8>): string
  {
    Strip(Latin1(value))
  }

  /** The job `sendJob` starts, if both the address and the IDs are set. */
  function JobFor(address: Option<string>, ids: Option<set<string>>): seq<Job>
  {
    if address.Some? && ids.Some? then [Job(address.value, |ids.value|, ids.value)] else []
  }

  /** A write to the ID characteristic: the end-of-input key turns the buffer
      into the ID set and starts a job; anything else is appended to the
      buffer. `jobRaises` says whether `main` raises when it runs (a failed
      `assert`, the `Mismatch` outcome of `Handler.RunJob`): the buffer is
      emptied only after `sendJob` has returned, so a job that raises leaves
      it as it was. */
  function WriteIds(l: Link, value: seq<bv8>, jobRaises: bool): (r: Link)
    ensures r.address == l.address
    ensures |r.jobs| == |l.jobs| + (if Incoming(value) == EoiKey && l.address.Some? then 1 else 0)
    ensures r.jobs[..|l.jobs|] == l.jobs
    ensures Incoming(value) == EoiKey ==> r.ids == Some(IdSet(l.buffer))
    ensures Incoming(value) == EoiKey && (l.address.None? || !jobRaises) ==> r.buffer == ""
    ensures Incoming(value) == EoiKey && l.address.Some? && jobRaises ==> r.buffer == l.buffer
    ensures Incoming(value) != EoiKey ==> r.ids == l.ids && r.buffer == l.buffer + Incoming(value)
  {
    var incoming := Incoming(value);
    if incoming == EoiKey then
      var ids := IdSet(l.buffer);
      var started := JobFor(l.address, Some(ids));
      var raised := started != [] && jobRaises;
      Link(if raised then l.buffer else "", l.address, Some(ids), l.jobs + started)
    else
      l.(buffer := l.buffer + incoming)
  }

  /** A write to the address characteristic: the stripped text becomes the address. */
  function WriteAddress(l: Link, value: seq<bv8>): (r: Link)
    ensures r.address.Some? && NoSpaceAtEnds(r.address.value)
    ensures r.buffer == l.buffer && r.ids == l.ids && r.jobs == l.jobs
  {
    l.(address := Some(Incoming(value)))
  }

  /** A run of writes to the ID characteristic, in order, during which every
      job that starts returns normally. */
  function Feed(l: Link, chunks: seq<seq<bv8>>): Link
  {
    if chunks == [] then l else WriteIds(Feed(l, chunks[..|chunks| - 1]), chunks[|chunks| - 1], false)
  }

  /** What a run of chunks adds to the buffer when none of them ends the transfer. */
  function Buffered(chunks: seq<seq<bv8>>): string
  {
    if chunks == [] then "" else Buffered(chunks[..|chunks| - 1]) + Incoming(chunks[|chunks| - 1])
  }

  /** The characters of a run of chunks, unstripped. */
  function Text(chunks: seq<seq<bv8>>): string
  {
    if chunks == [] then "" else Text(chunks[..|chunks| - 1]) + Latin1(chunks[|chunks| - 1])
  }

  class BleService {
    var address: Option<string>
    var ids: Option<set<string>>
    /** The jobs `sendJob` has started, oldest first. */
    var jobs: seq<Job>

    constructor ()
      ensures address == None && ids == None && jobs == []
    {
      address := None;
      ids := None;
      jobs := [];
    }

    /** `sendJob`: starts a job for every ID only once both the address and
        the IDs are known; `raised` says whether that job raised, which
        `jobRaises` decides. */
    method SendJob(jobRaises: bool) returns (raised: bool)
      modifies this
      ensures address == old(address) && ids == old(ids)
      ensures jobs == old(jobs) + JobFor(address, ids)
      ensures raised == (address.Some? && ids.Some? && jobRaises)
    {
      raised := false;
      if address.Some? && ids.Some? {
        jobs := jobs + [Job(address.value, |ids.value|, ids.value)];
        raised := jobRaises;
      }
    }

    /** `getAddress`. */
    method GetAddress() returns (r: Option<string>)
      ensures r == address
    {
      r := address;
    }

    /** `set_address`. */
    method SetAddress(a: string)
      modifies this
      ensures address == Some(a) && ids == old(ids) && jobs == old(jobs)
    {
      address := Some(a);
    }

    /** `set_ids`. */
    method SetIds(s: set<string>)
      modifies this
      ensures ids == Some(s) && address == old(address) && jobs == old(jobs)
    {
      ids := Some(s);
    }

    /** `getIds`: the IDs, or nothing before any have arrived. */
    method GetIds() returns (r: set<string>)
      ensures ids.Some? ==> r == ids.value
      ensures ids.None? ==> r == {}
    {
      if ids.Some? {
        r := ids.value;
      } else {
        r := {};
      }
    }
  }

  class SendIdsCharacteristic {
    const service: BleService
    /** The module-wide `val_buffer`; only this characteristic uses it. */
    var valBuffer: string

    constructor (service: BleService)
      ensures this.service == service && valBuffer == ""
    {
      this.service := service;
      valBuffer := "";
    }

    /** The state a write acts on. */
    function State(): Link
      reads this, service
    {
      Link(valBuffer, service.address, service.ids, service.jobs)
    }

    /** `WriteValue`: `val_buffer = ''` is reached only when `sendJob`
        returns, so the buffer survives a job that raises. */
    method WriteValue(value: seq<bv8>, jobRaises: bool)
      modifies this, service
      ensures State() == WriteIds(old(State()), value, jobRaises)
    {
      var incoming := Strip(Latin1(value));
      if incoming == EoiKey {
        var values := Split(valBuffer, ',');
        service.SetIds(SetOf(values));
        var raised := service.SendJob(jobRaises);
        if !raised {
          valBuffer := "";
        }
      } else {
        valBuffer := valBuffer + incoming;
      }
    }
  }

  class SetAddressCharacteristic {
    const service: BleService

    constructor (service: BleService)
      ensures this.service == service
    {
      this.service := service;
    }

    /** `WriteValue`: the stripped text becomes the service's address. */
    method WriteValue(value: seq<bv8>)
      modifies service
      ensures service.address == Some(Incoming(value))
      ensures service.ids == old(service.ids) && service.jobs == old(service.jobs)
    {
      var command := Latin1(value);
      service.SetAddress(Strip(command));
    }
  }

  /** `split(',')` gives one piece more than there are commas. */
  lemma {:induction false} SplitCount(s: string)
    ensures |Split(s, ',')| == Occurrences(s, ',') + 1
    decreases |s|
  {
    var k := Find(s, ',');
    if k < 0 {
      NoOccurrences(s);
    } else {
      assert |Split(s, ',')| == 1 + |Split(s[k + 1..], ',')|;
      SplitCount(s[k + 1..]);
      OccurrencesAtFirst(s, k);
    }
  }

  /** Cutting at the first comma: the commas after it and that one. */
  lemma OccurrencesAtFirst(s: string, k: nat)
    requires k < |s| && s[k] == ',' && ',' !in s[..k]
    ensures Occurrences(s, ',') == Occurrences(s[k + 1..], ',') + 1
  {
    assert s == s[..k] + [','] + s[k + 1..];
    OccurrencesAppend(s[..k] + [','], s[k + 1..]);
    OccurrencesAppend(s[..k], [',']);
    NoOccurrences(s[..k]);
  }

  lemma {:induction false} NoOccurrences(s: string)
    requires ',' !in s
    ensures Occurrences(s, ',') == 0
  {
    if s != [] {
      NoOccurrences(s[..|s| - 1]);
    }
  }

  lemma {:induction false} OccurrencesAppend(a: string, b: string)
    ensures Occurrences(a + b, ',') == Occurrences(a, ',') + Occurrences(b, ',')
    decreases |b|
  {
    if b == [] {
      assert a + b == a;
    } else {
      var init := b[..|b| - 1];
      assert (a + b)[..|a + b| - 1] == a + init;
      assert (a + b)[|a + b| - 1] == b[|b| - 1];
      OccurrencesAppend(a, init);
      assert Occurrences(a + b, ',') == Occurrences(a + init, ',') + (if b[|b| - 1] == ',' then 1 else 0);
      assert Occurrences(b, ',') == Occurrences(init, ',') + (if b[|b| - 1] == ',' then 1 else 0);
    }
  }

  /** Every ID is comma-free, there is always at least one, and a job never
      has more parts than the buffer had commas plus one. */
  lemma IdSetBounds(buffer: string)
    ensures IdSet(buffer) != {}
    ensures forall id :: id in IdSet(buffer) ==> ',' !in id
    ensures |IdSet(buffer)| <= Occurrences(buffer, ',') + 1
  {
    SplitCount(buffer);
  }

  /** A list of comma-free IDs sent joined by commas comes back as its set. */
  lemma IdSetOfJoin(ids: seq<string>)
    requires |ids| >= 1
    requires forall i :: 0 <= i < |ids| ==> ',' !in ids[i]
    ensures IdSet(Join(ids, ',')) == SetOf(ids)
  {
    SplitJoin(ids, ',');
  }

  /** An empty transfer does not leave the ID set empty: it is the one blank
      ID, so the job that starts has one part. */
  lemma EmptyTransferStartsBlankJob(l: Link, value: seq<bv8>, jobRaises: bool)
    requires l.buffer == "" && l.address.Some?
    requires Incoming(value) == EoiKey
    ensures WriteIds(l, value, jobRaises).ids == Some({""})
    ensures WriteIds(l, value, jobRaises).jobs == l.jobs + [Job(l.address.value, 1, {""})]
  {
    assert Split("", ',') == [""];
    assert SetOf([""]) == {""};
  }

  /** Chunks that do not end the transfer only grow the buffer, by their
      stripped text, and change nothing else. */
  lemma {:induction false} FeedAppends(l: Link, chunks: seq<seq<bv8>>)
    requires forall k :: 0 <= k < |chunks| ==> Incoming(chunks[k]) != EoiKey
    ensures Feed(l, chunks) == l.(buffer := l.buffer + Buffered(chunks))
  {
    if chunks != [] {
      var n := |chunks| - 1;
      var init, last := chunks[..n], chunks[n];
      assert forall k :: 0 <= k < n ==> init[k] == chunks[k];
      FeedAppends(l, init);
      assert Incoming(last) != EoiKey;
      assert Buffered(chunks) == Buffered(init) + Incoming(last);
      Reassociate(l.buffer, Buffered(init), Incoming(last));
    }
  }

  /** Chunks without white space at their ends reach the buffer unchanged. */
  lemma {:induction false} BufferedClean(chunks: seq<seq<bv8>>)
    requires forall k :: 0 <= k < |chunks| ==> NoSpaceAtEnds(Latin1(chunks[k]))
    ensures Buffered(chunks) == Text(chunks)
  {
    if chunks != [] {
      BufferedClean(chunks[..|chunks| - 1]);
      StripFixedPoint(Latin1(chunks[|chunks| - 1]));
    }
  }

  /** A full transfer: comma-joined IDs sent in chunks with no white space at
      their ends, then the end-of-input key. The service ends up holding the
      set of those IDs, starts one job over them with one part per distinct
      ID, and, the job having returned, the buffer is empty again. */
  lemma TransferStartsJob(l: Link, ids: seq<string>, chunks: seq<seq<bv8>>, eoi: seq<bv8>)
    requires l.buffer == "" && l.address.Some?
    requires |ids| >= 1 && forall i :: 0 <= i < |ids| ==> ',' !in ids[i]
    requires forall k :: 0 <= k < |chunks| ==> NoSpaceAtEnds(Latin1(chunks[k])) && Latin1(chunks[k]) != EoiKey
    requires Text(chunks) == Join(ids, ',')
    requires Latin1(eoi) == EoiKey
    ensures Feed(l, chunks + [eoi])
      == Link("", l.address, Some(SetOf(ids)), l.jobs + [Job(l.address.value, |SetOf(ids)|, SetOf(ids))])
  {
    var all := chunks + [eoi];
    var mid := l.(buffer := Join(ids, ','));
    assert Feed(l, chunks) == mid by {
      forall k | 0 <= k < |chunks|
        ensures Incoming(chunks[k]) != EoiKey
      {
        StripFixedPoint(Latin1(chunks[k]));
      }
      FeedAppends(l, chunks);
      BufferedClean(chunks);
    }
    assert Feed(l, all) == WriteIds(mid, eoi, false) by {
      assert all[..|all| - 1] == chunks;
    }
    assert Incoming(eoi) == EoiKey by {
      StripFixedPoint(EoiKey);
    }
    IdSetOfJoin(ids);
  }

  /** A job that raises still leaves the IDs set and the job started, but
      the buffer is not emptied. */
  lemma FailedJobKeepsBuffer(l: Link, value: seq<bv8>)
    requires l.address.Some? && Incoming(value) == EoiKey
    ensures WriteIds(l, value, true)
      == Link(l.buffer, l.address, Some(IdSet(l.buffer)), l.jobs + [Job(l.address.value, |IdSet(l.buffer)|, IdSet(l.buffer))])
  {
  }

  /** After a job that raised, the next transfer is glued onto the IDs of
      the failed one: its text joins the old buffer without a comma. */
  lemma GluedTransferAfterFailedJob(l: Link, eoi: seq<bv8>, chunk: seq<bv8>)
    requires l.address.Some? && Incoming(eoi) == EoiKey && Incoming(chunk) != EoiKey
    ensures WriteIds(WriteIds(WriteIds(l, eoi, true), chunk, false), eoi, false).ids
      == Some(IdSet(l.buffer + Incoming(chunk)))
  {
    var failed := WriteIds(l, eoi, true);
    assert failed.buffer == l.buffer;
    var glued := WriteIds(failed, chunk, false);
    assert glued.buffer == l.buffer + Incoming(chunk);
  }

  /** "a,b", a job that raises, then "c,d" and the key: the IDs are a, bc
      and d, not c and d. */
  lemma GluedIdsExample(l: Link, eoi: seq<bv8>, chunk: seq<bv8>)
    requires l.buffer == "a,b" && l.address.Some?
    requires Incoming(eoi) == EoiKey && Incoming(chunk) == "c,d"
    ensures WriteIds(WriteIds(WriteIds(l, eoi, true), chunk, false), eoi, false).ids == Some({"a", "bc", "d"})
  {
    GluedTransferAfterFailedJob(l, eoi, chunk);
    GluedIds();
  }

  lemma GluedIds()
    ensures IdSet("a,b" + "c,d") == {"a", "bc", "d"}
  {
    var ids := ["a", "bc", "d"];
    GluedJoin();
    IdSetOfJoin(ids);
    assert SetOf(ids) == SetOf(ids[..2]) + {"d"};
    assert SetOf(ids[..2]) == SetOf(ids[..1]) + {"bc"};
  }

  lemma GluedJoin()
    ensures Join(["a", "bc", "d"], ',') == "a,b" + "c,d"
  {
    var ids := ["a", "bc", "d"];
    assert Join(ids[2..], ',') == "d";
    assert Join(ids[1..], ',') == "bc" + "," + "d";
  }

  /** Without an address no transfer starts a job, however many chunks and
      end-of-input keys arrive. */
  lemma {:induction false} NoJobWithoutAddress(l: Link, chunks: seq<seq<bv8>>)
    requires l.address.None?
    ensures Feed(l, chunks).jobs == l.jobs
    ensures Feed(l, chunks).address.None?
  {
    if chunks != [] {
      NoJobWithoutAddress(l, chunks[..|chunks| - 1]);
    }
  }

  /** Setting the address in the middle of a transfer does not disturb the
      IDs collected so far: the two writes commute. */
  lemma AddressWriteCommutes(l: Link, chunk: seq<bv8>, value: seq<bv8>, jobRaises: bool)
    requires Incoming(chunk) != EoiKey
    ensures WriteIds(WriteAddress(l, value), chunk, jobRaises) == WriteAddress(WriteIds(l, chunk, jobRaises), value)
  {
  }

  /** An address without white space at its ends is stored exactly as sent. */
  lemma AddressRoundTrip(l: Link, address: string, value: seq<bv8>)
    requires Latin1(value) == address && NoSpaceAtEnds(address)
    ensures WriteAddress(l, value).address == Some(address)
  {
    StripFixedPoint(address);
  }
}
