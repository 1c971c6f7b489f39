/** The Xbox DVD Playback Kit (USB 045e:0284): a device that serves its
    firmware image in 0x400-byte pages over vendor control requests, answers
    two fixed requests, and returns a fixed report on its interrupt IN
    endpoint. The firmware is read-only once the device is realized. */
module DvdPlaybackKit {
  import opened Usb

  datatype Option<T> = None | Some(value: T)

  /** Size of the device's firmware buffer. */
  const FirmwareCapacity: nat := 0x40000
  /** Firmware bytes per page; `wValue` is the page number. */
  const PageSize: nat := 0x400

  /** Accessory descriptor returned for request 0xc106: length 8, type 0x42,
      accessory id 0x0001, type 0x03, subtype 0x00, report sizes 6 in and 0 out. */
  const XidDescriptor: seq<byte> := [0x08, 0x42, 0x00, 0x01, 0x03, 0x00, 0x06, 0x00]
  /** Filler written into the buffer for the stalled GET_REPORT. */
  const ReportFiller: seq<byte> := [0xff, 0xff, 0xff, 0xff, 0xff, 0xff]
  /** The report every interrupt IN poll returns. */
  const InterruptReport: seq<byte> := [0x00, 0x06, 0xa7, 0x0A, 0x40, 0x00]

  /** The bounds guard of a page read: the requested range ends within the
      loaded firmware. With a 16-bit page number and a length bounded by the
      control buffer, `0x400 * value + length` stays far below 2^32, so the
      unsigned arithmetic does not wrap. */
  predicate PageInBounds(value: int, length: int, firmwareLen: int) {
    PageSize * value + length <= firmwareLen
  }

  /** Requests 0xc101 and 0xc102 on values: `length` bytes from page
      `value`, or nothing when the range does not end within the loaded
      firmware (a zero-length transfer, not a partial one). */
  function PageRead(firmware: seq<byte>, firmwareLen: nat, value: int, length: int): (r: Option<seq<byte>>)
    requires firmwareLen <= |firmware| && IsWord(value) && 0 <= length
    ensures r.Some? <==> PageSize * value + length <= firmwareLen
    ensures r.Some? ==>
      && |r.value| == length
      && forall i | 0 <= i < length :: r.value[i] == firmware[PageSize * value + i]
  {
    if PageInBounds(value, length, firmwareLen) then
      Some(firmware[PageSize * value .. PageSize * value + length])
    else
      None
  }

  /** A page read never looks at a byte at or beyond `firmwareLen`: two
      buffers that agree on the loaded prefix answer every read alike. */
  lemma PageReadSeesOnlyLoadedBytes(fw1: seq<byte>, fw2: seq<byte>, firmwareLen: nat, value: int, length: int)
    requires firmwareLen <= |fw1| && firmwareLen <= |fw2| && fw1[..firmwareLen] == fw2[..firmwareLen]
    requires IsWord(value) && 0 <= length
    ensures PageRead(fw1, firmwareLen, value, length) == PageRead(fw2, firmwareLen, value, length)
  {
    if PageInBounds(value, length, firmwareLen) {
      var lo := PageSize * value;
      assert fw1[lo .. lo + length] == fw1[..firmwareLen][lo .. lo + length];
      assert fw2[lo .. lo + length] == fw2[..firmwareLen][lo .. lo + length];
    }
  }

  /** `firmware_len` as realize stores it: the `ssize_t` result of `read`,
      converted to `uint32_t`. Neither a failed read (-1) nor a file larger
      than the buffer is caught. */
  function LoadedLengthAsWritten(readResult: int): (r: int)
    ensures 0 <= r < 0x1_0000_0000
    ensures 0 <= readResult < 0x1_0000_0000 ==> r == readResult
  {
    readResult % 0x1_0000_0000
  }

  /** With the stored length as written, the guard lets through reads that
      start at or past the end of the firmware buffer: after a failed read
      (-1, as for a path naming a directory), and after a file one byte
      larger than the buffer. */
  lemma FailedReadDefeatsGuard()
    ensures LoadedLengthAsWritten(-1) == 0xFFFF_FFFF
    ensures PageInBounds(0x100, 1, LoadedLengthAsWritten(-1))
    ensures PageInBounds(0x100, 1, LoadedLengthAsWritten(FirmwareCapacity + 1))
    ensures PageSize * 0x100 + 1 > FirmwareCapacity
  {
  }

  /** The intended `firmware_len`: a failed read loads nothing, and a read
      never stores more than the buffer holds. */
  function LoadedLength(readResult: int): (r: nat)
    ensures r <= FirmwareCapacity
    ensures 0 <= readResult <= FirmwareCapacity ==> r == readResult
    ensures readResult < 0 ==> r == 0
  {
    if readResult < 0 then 0
    else if readResult > FirmwareCapacity then FirmwareCapacity
    else readResult
  }

  /** With the intended length, every range the guard admits lies inside the
      firmware buffer, whatever `read` returned. */
  lemma GuardStaysInBuffer(readResult: int, value: int, length: int)
    requires PageInBounds(value, length, LoadedLength(readResult))
    ensures PageSize * value + length <= FirmwareCapacity
  {
  }

  class Kit {
    const firmware: array<byte>
    const firmwareLen: nat

    ghost predicate Valid()
      reads this
    {
      firmware.Length == FirmwareCapacity && firmwareLen <= FirmwareCapacity
    }

    /** Realize, given the firmware file's contents and whether `read`
        succeeds: at most a buffer's worth of the file is loaded, and
        `firmwareLen` is LoadedLength of what `read` returns. Opening the
        file and its path property are not modelled. */
    constructor (file: seq<byte>, readOk: bool)
      ensures Valid() && fresh(firmware)
      ensures firmwareLen == LoadedLength(if readOk then |file| else -1)
      ensures firmware[..firmwareLen] == file[..firmwareLen]
    {
      var buffer := new byte[FirmwareCapacity];
      var n := LoadedLength(if readOk then |file| else -1);
      Memcpy(buffer, 0, file[..n]);
      firmware := buffer;
      firmwareLen := n;
    }

    /** A control transfer. When the framework's standard-request handler
        has accepted it (`handled`), this device does nothing more. `index`
        is not used. The firmware is never written. */
    method HandleControl(p: Packet, handled: bool, request: int, value: int, index: int,
                         length: int, data: array<byte>)
      requires Valid() && ControlBuffer(data, length) && IsWord(value)
      requires data != firmware
      modifies data, p
      ensures firmware[..] == old(firmware[..])
      ensures handled ==> data[..] == old(data[..]) && unchanged(p)
      ensures !handled && (request == VendorInRequest1 || request == VendorInRequest2) ==>
        var r := PageRead(firmware[..], firmwareLen, value, length);
        && (r.Some? ==>
              && data[..length] == r.value && data[length..] == old(data[length..])
              && p.actualLength == length)
        && (r.None? ==> data[..] == old(data[..]) && p.actualLength == 0)
        && p.status == old(p.status) && p.payload == old(p.payload)
      ensures !handled && request == VendorInRequest6 ==>
        && data[..8] == XidDescriptor && data[8..] == old(data[8..])
        && p.actualLength == 8
        && p.status == old(p.status) && p.payload == old(p.payload)
      ensures !handled && request == HidGetReport ==>
        && p.status == Stall
        && data[..6] == ReportFiller && data[6..] == old(data[6..])
        && p.actualLength == 0 && p.payload == old(p.payload)
      ensures !handled && request !in {VendorInRequest1, VendorInRequest2, VendorInRequest6, HidGetReport} ==>
        data[..] == old(data[..]) && unchanged(p)
    {
      if handled {
        return;
      }
      if request == VendorInRequest1 || request == VendorInRequest2 {
        var offset := PageSize * value;
        if offset + length <= firmwareLen {
          Memcpy(data, 0, firmware[offset .. offset + length]);
          p.actualLength := length;
        } else {
          p.actualLength := 0;
        }
      } else if request == VendorInRequest6 {
        Memcpy(data, 0, XidDescriptor);
        p.actualLength := 8;
      } else if request == HidGetReport {
        p.status := Stall;
        Memcpy(data, 0, ReportFiller);
        p.actualLength := 0;
      }
    }

    /** A data packet: every IN poll returns the fixed 6-byte report; OUT
        packets change nothing. */
    method HandleData(p: Packet, pid: Pid)
      modifies p
      ensures pid == TokenIn ==>
        && p.payload == old(p.payload) + InterruptReport
        && p.actualLength == old(p.actualLength) + 6
        && p.status == old(p.status)
      ensures pid != TokenIn ==> unchanged(p)
    {
      if pid == TokenIn {
        p.Copy(InterruptReport);
      }
    }
  }
}
