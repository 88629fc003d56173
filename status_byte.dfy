/** The status byte a serial poll of the handler returns. Bit 0x40 is the
    request-service (RQS) bit of the IEEE 488.2 status byte (section 11.2 of
    IEEE 488.2); with it set, 0x41 means a part is ready to be sorted and 0x44
    means an empty-socket check is pending. */
module StatusByte {

  const RQS: bv8 := 0x40
  const PART_READY: bv8 := 0x41
  const EMPTY_CHECK: bv8 := 0x44

  /** What the polling loops make of one status byte. */
  datatype SrqEvent = NoEvent | PartReady | EmptyCheck | Unrecognized

  /** The driver's reading of a status byte: nothing unless RQS is set, then the
      two handler codes, and every other byte with RQS set as an unrecognised request. */
  function Classify(status: bv8): (e: SrqEvent)
    ensures e == NoEvent <==> status & RQS == 0
    ensures e == PartReady <==> status == PART_READY
    ensures e == EmptyCheck <==> status == EMPTY_CHECK
    ensures e == Unrecognized <==> status & RQS != 0 && status != PART_READY && status != EMPTY_CHECK
  {
    if status & RQS == 0 then NoEvent
    else if status == PART_READY then PartReady
    else if status == EMPTY_CHECK then EmptyCheck
    else Unrecognized
  }
}
