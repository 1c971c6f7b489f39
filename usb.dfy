/** Pieces of the USB device framework that both Xbox peripherals share:
    bytes, transfer completion status, the packet a handler completes,
    and the bulk byte copy (`memcpy`) the handlers use. */
module Usb {

  type byte = x: int | 0 <= x < 256

  /** The 16-bit fields `wValue`, `wIndex` and `wLength` of a setup packet
      (section 9.3 of the USB 2.0 specification). */
  predicate IsWord(x: int) {
    0 <= x < 0x1_0000
  }

  /** Size of the framework's control data buffer (`data_buf` of a USB
      device); the framework refuses longer setup lengths before any
      handler runs. */
  const ControlBufferSize: nat := 4096

  /** What the framework guarantees about the `data` buffer and `length`
      handed to a control handler. */
  predicate ControlBuffer(data: array<byte>, length: int) {
    data.Length == ControlBufferSize && 0 <= length <= ControlBufferSize
  }

  /** Request codes as `(bmRequestType << 8) | bRequest`. */
  const VendorOutRequest1: int := 0x4101  // host-to-device, vendor, interface
  const VendorInRequest1: int := 0xc101   // device-to-host, vendor, interface
  const VendorInRequest2: int := 0xc102
  const VendorInRequest6: int := 0xc106
  /** GET_REPORT, class request to an interface (section 7.2.1 of HID 1.11). */
  const HidGetReport: int := 0xa101

  /** Completion status of a packet (USB_RET_SUCCESS, USB_RET_STALL, USB_RET_NAK). */
  datatype Status = Success | Stall | Nak

  /** Token of a data packet. */
  datatype Pid = TokenSetup | TokenIn | TokenOut

  /** A transfer as a handler sees it: its completion status, its actual
      length, and the bytes handed to the host so far. */
  class Packet {
    var status: Status
    var actualLength: int
    var payload: seq<byte>

    constructor ()
      ensures status == Success && actualLength == 0 && payload == []
    {
      status := Success;
      actualLength := 0;
      payload := [];
    }

    /** `usb_packet_copy` on an IN packet: the bytes go to the host and the
        actual length grows by their number; the status is left alone. */
    method Copy(bytes: seq<byte>)
      modifies this
      ensures payload == old(payload) + bytes
      ensures actualLength == old(actualLength) + |bytes|
      ensures status == old(status)
    {
      payload := payload + bytes;
      actualLength := actualLength + |bytes|;
    }
  }

  /** `memcpy(dst + at, src, |src|)`: the bytes before `at` and after the
      copied range keep their old values. */
  method Memcpy(dst: array<byte>, at: nat, src: seq<byte>)
    requires at + |src| <= dst.Length
    modifies dst
    ensures dst[..] == old(dst[..at]) + src + old(dst[at + |src|..])
  {
    forall i | at <= i < at + |src| {
      dst[i] := src[i - at];
    }
    assert dst[..] == old(dst[..at]) + src + old(dst[at + |src|..]) by {
      assert forall i | 0 <= i < dst.Length ::
        dst[..][i] == (old(dst[..at]) + src + old(dst[at + |src|..]))[i];
    }
  }
}
