# Xbox camera and DVD Playback Kit: USB vendor-protocol model

A Dafny model of two emulated Xbox USB peripherals and proofs about them.

- **Xbox Video Camera** (`045e:028c`). It has two 256-byte register files: the OV519 bridge
  (`controller`) and the OV7648 image sensor (`sensor`).
  - Vendor request `0x4101` writes one controller register. Index `0x47` with command byte
    1 or 5 first moves one byte over a virtual I2C bus between the two files.
  - Vendor request `0xc101` returns one controller register, replicated `length` times.
  - The isochronous IN endpoint streams each encoded frame as 768-byte packets: a header
    packet, body packets, a footer packet, then a tail of NAKs.
- **DVD Playback Kit** (`045e:0284`). It serves its firmware image in `0x400`-byte pages
  (`0xc101`/`0xc102`). It returns a fixed accessory descriptor (`0xc106`). It stalls
  GET_REPORT (`0xa101`) but still writes filler bytes. Every interrupt IN poll returns a
  fixed 6-byte report.

Request codes are `(bmRequestType << 8) | bRequest`, the setup-packet layout of section
9.3 of the USB 2.0 specification. `0xa101` is GET_REPORT (section 7.2.1 of HID 1.11).

Modules:

- `Usb` (usb.dfy): bytes, completion status, the packet a handler completes, and `memcpy`.
- `CameraRegisters` (camera_registers.dfy): the register files as values, the relay, and
  the vendor write and read.
- `CameraStream` (camera_stream.dfy): the IN state machine as a step function, with lemmas
  about whole traces.
- `XboxCamera` (xbox_camera.dfy): the camera device as a class. Its arrays and counters are
  updated in place. Each handler's postcondition ties the new state to the value-level
  definitions.
- `DvdPlaybackKit` (dvd_kit.dfy): the page-read guard, the firmware load, and the kit as a
  class. The class has a read-only firmware array, and its handler fills the caller's
  buffer.

Where prose descriptions of the device and the code differ, the model follows the code:

- State 30 of the stream returns to state 0 but leaves `offset` as it is. Offset is
  reassigned anyway when the next header is sent.
- The relay's command byte is the same payload byte that is then stored in register `0x47`.
- The camera runs its vendor switch even when the standard-request handler accepted the
  request. The `return` in that branch sits inside a comment.

## Model

| member | source | states |
|---|---|---|
| `CameraRegisters.FactoryRegs` | hw/xbox/xbox_camera.c:38-74 | The OV519 table (controller) and the OV7648 table (sensor) are each exactly 256 bytes, so each fills its register file exactly. |
| `CameraRegisters.RegIndex` | hw/xbox/xbox_camera.c:360 | `index & 0xff`: the register lies in 0..255 and is the low byte of the 16-bit index. |
| `CameraRegisters.Classify` | hw/xbox/xbox_camera.c:351-358 | The I2C write relay fires exactly when the unmasked index is 0x47 and the command is 1. The I2C read relay fires exactly when the index is 0x47 and the command is 5. Both are if-and-only-if. |
| `CameraRegisters.Relay` | hw/xbox/xbox_camera.c:352-357 | I2C write: `sensor[controller[0x42]]` takes `controller[0x45]`; no other sensor byte and no controller byte changes. I2C read: `controller[0x45]` takes `sensor[controller[0x43]]`; the sensor and every other controller byte are unchanged. |
| `CameraRegisters.VendorWrite` | hw/xbox/xbox_camera.c:350-361 | After a 0x4101 write, `controller[index & 0xff]` holds the payload byte, also when the relay ran first. For `index != 0x47`, the sensor and every other controller byte are unchanged. |
| `CameraRegisters.VendorRead` | hw/xbox/xbox_camera.c:363-368 | A 0xc101 read returns `length` bytes, each equal to `controller[index & 0xff]`. |
| `CameraRegisters.I2cWriteThroughBridge` | hw/xbox/xbox_camera.c:351-360 | Index 0x47 with command 1: `sensor[old controller[0x42]] == old controller[0x45]`. Every other sensor byte is unchanged. In the controller only 0x47 changes, and it becomes 1. |
| `CameraRegisters.I2cReadThroughBridge` | hw/xbox/xbox_camera.c:351-360 | Index 0x47 with command 5: the new `controller[0x45] == old sensor[old controller[0x43]]` and `controller[0x47] == 5`. The sensor and all other controller bytes are unchanged. |
| `CameraRegisters.OtherCommandIsPlainStore` | hw/xbox/xbox_camera.c:351-360 | Any other command byte on 0x47 only stores that byte at 0x47. |
| `CameraRegisters.WriteThenRead` | hw/xbox/xbox_camera.c:350-368 | A write followed by a read at the same index returns the written byte, replicated over the whole read. |
| `CameraStream.NextFrameId` | hw/xbox/xbox_camera.c:439 | The frame counter advances modulo 256: 255 wraps to 0. |
| `CameraStream.Step` | hw/xbox/xbox_camera.c:465-500 | One IN call. State 0 sends the header, sets offset to 752 and state to 1, and takes the new frame length. A body is sent exactly when the state is non-zero and offset < length. The chunk is `min(length - offset, 768)`, offset grows by it without passing the length, and the state grows by 1. A footer is sent exactly when 0 < state < 25 and the frame is exhausted; it jumps the state to 25. Otherwise the call NAKs: state 30 goes to 0, any other state is incremented, and offset stays unchanged. |
| `CameraStream.Run` | hw/xbox/xbox_camera.c:450-505 | n consecutive IN calls produce exactly n events. The invariant `offset <= max(jpgSize, 752)` is kept over any run: the offset never passes the end of the current frame, except right after the header of a frame shorter than 752 bytes. |
| `CameraStream.ChunksCover` | hw/xbox/xbox_camera.c:476-484 | Body packets carry `[from, size)` in consecutive 768-byte chunks, the last one possibly shorter, so the offset strictly increases. There are ceil((size - from) / 768) of them. |
| `CameraStream.RunSplit` | hw/xbox/xbox_camera.c:450-505 | Running m + n calls is running m calls and then n more from the state they leave. |
| `CameraStream.BodyPhase` | hw/xbox/xbox_camera.c:476-484 | From any non-zero state, the body packets follow one per call until the offset reaches the frame length. Each one increments the state, however far past 25 that goes. |
| `CameraStream.IdleTail` | hw/xbox/xbox_camera.c:485-493 | From state 25..30 with the frame exhausted, every call up to and including state 30 NAKs. The last one returns to state 0 and leaves the offset unchanged. |
| `CameraStream.FooterThenGap` | hw/xbox/xbox_camera.c:485-500 | From a state 1..24 with the frame exhausted, the calls go footer, six NAKs, then header: exactly 6 NAKs lie between a footer and the next header. |
| `CameraStream.RunawayNaks` | hw/xbox/xbox_camera.c:486-493 | Past state 30 with the frame exhausted, every call NAKs and increments the state, so the stream never restarts. |
| `CameraStream.FrameCycle` | hw/xbox/xbox_camera.c:465-500 | A frame cycle from state 0 with B body packets. If B < 24: header, the bodies, footer, six NAKs, back to state 0. If 24 <= B < 30: the footer is skipped and NAKs follow until state 30 restarts the cycle, 31 calls in all. |
| `CameraStream.RunawayCycle` | hw/xbox/xbox_camera.c:476-493 | If B >= 30, the header and bodies are followed by NAKs forever, with the state counting up past 30. |
| `XboxCamera.Camera.constructor` | hw/xbox/xbox_camera.c:24-30 | A new device starts zero-filled: both register files hold 256 zero bytes, and state and offset are 0. The frame length and frame counter start at 0, as their initialisers at xbox_camera.c lines 409-411 give them. |
| `XboxCamera.Camera.HandleReset` | hw/xbox/xbox_camera.c:320-328 | Reset loads the factory tables into both register files and sets state = offset = 0. Nothing else changes. The post-state does not depend on the pre-state, so a second reset changes nothing. |
| `XboxCamera.Camera.HandleControl` | hw/xbox/xbox_camera.c:330-369 | 0x4101: the register files become `VendorWrite` of the old ones, `actual_length` is 1, and `data` is untouched. 0xc101: the registers are unchanged, `data[..length]` is `VendorRead`, the rest of `data` is untouched, and `actual_length` is `length`. Other requests change nothing. The standard handler's verdict is not consulted. |
| `XboxCamera.Camera.ReadJpgData` | hw/xbox/xbox_camera.c:427-447 | The frame counter wraps modulo 256. The encoder's output overwrites the start of the frame buffer and `jpgSize` becomes its length. |
| `XboxCamera.Camera.HandleData` | hw/xbox/xbox_camera.c:450-505 | An IN call moves the counters as `Step`. Header: `pk` is the 16 header bytes and then the first 752 bytes of the new frame buffer. Body: the chunk lands at the start of `pk`. Footer: `pk` starts with the 16 footer bytes. NAK: status NAK and actual length 0. Every delivered packet is all 768 bytes of `pk`, and its other bytes keep their stale values. OUT packets change nothing. |
| `DvdPlaybackKit.PageRead` | hw/xbox/xbox_dvd_playback_kit.c:150-160 | The read succeeds exactly when `0x400*value + length <= firmware_len`. Then it returns `firmware[0x400*value .. 0x400*value + length)`, byte for byte; otherwise it returns nothing. |
| `DvdPlaybackKit.PageReadSeesOnlyLoadedBytes` | hw/xbox/xbox_dvd_playback_kit.c:153-156 | No page read depends on a byte at or beyond `firmware_len`. |
| `DvdPlaybackKit.LoadedLengthAsWritten` | hw/xbox/xbox_dvd_playback_kit.c:126 | The stored `firmware_len` is the `read` result converted to 32 bits unsigned. It equals the result whenever the result is in range. |
| `DvdPlaybackKit.FailedReadDefeatsGuard` | hw/xbox/xbox_dvd_playback_kit.c:124-126 | As written, a failed read stores 0xFFFFFFFF. Then the page 0x100, length 1 read passes the guard, yet it starts past the 0x40000-byte buffer. A file one byte over capacity lets the same read through. |
| `DvdPlaybackKit.LoadedLength` | hw/xbox/xbox_dvd_playback_kit.c:126 | The intended length never exceeds the buffer, is 0 after a failed read, and is the byte count otherwise. |
| `DvdPlaybackKit.GuardStaysInBuffer` | hw/xbox/xbox_dvd_playback_kit.c:154 | With the intended length, every range the guard admits lies inside the firmware buffer. |
| `DvdPlaybackKit.Kit.constructor` | hw/xbox/xbox_dvd_playback_kit.c:111-128 | Realize loads the file's first `firmware_len` bytes, with `firmware_len` given by `LoadedLength`. |
| `DvdPlaybackKit.Kit.HandleControl` | hw/xbox/xbox_dvd_playback_kit.c:130-194 | If the standard handler accepted the request, nothing happens. 0xc101/0xc102: `data` gets `PageRead` and `actual_length` is `length`, or `actual_length` is 0 and `data` is untouched. 0xc106: `data[..8]` is `08 42 00 01 03 00 06 00` and `actual_length` is 8. 0xa101: status STALL, `data[..6]` is all 0xFF, and `actual_length` is 0, whatever the length. Other requests change nothing. The firmware never changes. |
| `DvdPlaybackKit.Kit.HandleData` | hw/xbox/xbox_dvd_playback_kit.c:196-209 | Every IN poll delivers exactly `00 06 a7 0A 40 00`. OUT packets change nothing. |

## Left out

- DvdPlaybackKit.Kit.constructor: `firmwareLen` is `LoadedLength`, the corrected, clamped length. The source stores the unchecked result (`LoadedLengthAsWritten`); see Findings.
- USB descriptor tables and the framework's standard-request handler (`usb_desc_init`,
  `usb_desc_handle_control`) are foreign framework code. The handler's verdict is the
  boolean input `handled`.
- The JPEG encoder `jo_write_jpg` is a foreign library, and the synthetic pixel image fed
  to it is left out with it. The encoder's output is a byte-sequence parameter of the IN
  handler, at most the 153600-byte buffer. It is used only when a frame starts.
- `usb_packet_copy` is modelled as appending the bytes to the packet's payload and adding
  their number to its actual length. The capacity of the packet's I/O vector is not
  modelled.
- The frame buffer, its length and the frame counter are process-wide globals in the
  source. Here they are fields of the camera object, so two camera instances do not share
  them.
- Realize's `open`, `lseek` and `close` and the firmware-path property are file-system
  I/O. The kit's constructor takes the file's contents and whether `read` succeeds.
- Logging, commented-out debug code, class initialisation and type registration have no
  behaviour to model.
- The caller's `data` buffer is the framework's 4096-byte control buffer, with `length` at
  most 4096. `index` and `value` are 16-bit. These are preconditions, because the
  framework guarantees them.
- XboxCamera.Camera.HandleData: the stream state is an unbounded `nat`. In the runaway NAK
  case the source's `int` would overflow after about 2^31 calls; that is not modelled.
- XboxCamera.Camera.HandleData: bytes of `pk` past the header, chunk or footer are
  uninitialised stack memory in the source. The model keeps whatever the caller-supplied
  scratch buffer held.

## Findings

| source | as written | input that shows it | evidently intended | confidence | as-written member | corrected member |
|---|---|---|---|---|---|---|
| hw/xbox/xbox_dvd_playback_kit.c:126 | `firmware_len` stores the unchecked `read` result. A failure (-1) becomes 0xFFFFFFFF, and a file larger than the 0x40000-byte buffer is read past its end. | A firmware path naming a directory, where `read` returns -1. Then request 0xc101 with `value = 0x100`, `length = 1` passes the guard at line 154 and copies from offset 0x40000 of a 0x40000-byte buffer. | `firmware_len` is clamped to 0..0x40000, so the guard keeps every copy inside the buffer. | medium, not executed | `DvdPlaybackKit.FailedReadDefeatsGuard` | `DvdPlaybackKit.GuardStaysInBuffer` |
