/** The camera's register bridge (OV519 controller) and the image sensor
    (OV7648) behind it, as two 256-byte register files, with the vendor
    register write, the virtual I2C relay it triggers, and the vendor
    register read. Values only; the device class in module XboxCamera
    updates its arrays as these functions say. */
module CameraRegisters {
  import opened Usb

  /** Controller registers that drive the virtual I2C bus to the sensor. */
  const I2cWriteAddr: int := 0x42  // sensor register an I2C write targets
  const I2cReadAddr: int := 0x43   // sensor register an I2C read targets
  const I2cData: int := 0x45       // byte written to, or read from, the sensor
  const I2cCommand: int := 0x47    // writing here with a command byte starts a transfer

  /** Command bytes written to I2cCommand. */
  const I2cWriteCmd: byte := 1
  const I2cReadCmd: byte := 5

  /** Factory contents of the controller registers. */
  const Ov519Defaults: seq<byte> := [
    0xc0, 0x00, 0xa8, 0x00, 0x00, 0x00, 0x00, 0x00, 0x00, 0x00, 0x00, 0x01, 0x00, 0x00, 0x00, 0x00,
    0x14, 0x1e, 0x00, 0x00, 0x00, 0x00, 0x00, 0x40, 0x00, 0x00, 0x00, 0x44, 0x00, 0x00, 0x00, 0x00,
    0x00, 0x08, 0x98, 0xff, 0x00, 0x03, 0x00, 0x00, 0x1e, 0x01, 0xf1, 0x00, 0x01, 0x00, 0x00, 0x00,
    0xff, 0xff, 0xff, 0xff, 0x50, 0x51, 0x52, 0x01, 0x00, 0x00, 0x00, 0x00, 0x00, 0x00, 0x00, 0x00,
    0x00, 0x00, 0x00, 0x00, 0x00, 0x00, 0x00, 0x05, 0x3b, 0x00, 0x00, 0x00, 0x00, 0x00, 0x00, 0x00,
    0x00, 0x00, 0x00, 0xff, 0x00, 0x01, 0x00, 0x21, 0x00, 0x02, 0x6d, 0x0e, 0x00, 0x02, 0x00, 0x11,
    0x00, 0x00, 0x0f, 0x00, 0x00, 0x00, 0x00, 0x00, 0x05, 0x04, 0x01, 0x00, 0x00, 0x00, 0x00, 0x00,
    0xb4, 0x00, 0xff, 0x00, 0xff, 0x00, 0x00, 0xff, 0x03, 0x03, 0xfc, 0x00, 0xff, 0x00, 0x00, 0xff,
    0x00, 0x00, 0xff, 0x00, 0xff, 0x00, 0x00, 0xff, 0x00, 0x00, 0x00, 0x00, 0x7f, 0x00, 0x00, 0x00,
    0x00, 0x00, 0x00, 0x00, 0x00, 0x00, 0x00, 0x00, 0x00, 0x00, 0x00, 0x00, 0x00, 0x00, 0x00, 0x00,
    0x33, 0x04, 0x40, 0x40, 0x0c, 0x3f, 0x00, 0x00, 0x00, 0x20, 0x00, 0x00, 0x00, 0x00, 0x00, 0x00,
    0x00, 0x0a, 0x0f, 0x1e, 0x2d, 0xff, 0x00, 0xff, 0x00, 0xff, 0x00, 0x00, 0x00, 0x00, 0x00, 0x00,
    0x00, 0x01, 0x02, 0x03, 0x00, 0x05, 0x02, 0x07, 0x00, 0x09, 0x02, 0x0b, 0x00, 0x0d, 0x02, 0x0f,
    0x00, 0x11, 0x02, 0x13, 0x00, 0x15, 0x02, 0x17, 0x00, 0x19, 0x02, 0x1b, 0x00, 0x1d, 0x02, 0x1f,
    0x50, 0x64, 0x82, 0x96, 0x82, 0x81, 0x00, 0x01, 0x02, 0x00, 0x10, 0x00, 0x00, 0x00, 0x00, 0x00,
    0x20, 0x40, 0x60, 0x80, 0xa0, 0xc0, 0xe0, 0x00, 0x00, 0x00, 0x00, 0x00, 0x00, 0x00, 0x00, 0x00
  ]

  /** Factory contents of the sensor registers. */
  const Ov7648Defaults: seq<byte> := [
    0x00, 0x84, 0x84, 0x84, 0x34, 0x3e, 0x80, 0x8c, 0x00, 0x00, 0x76, 0x48, 0x7b, 0x5b, 0x00, 0x98,
    0x57, 0x00, 0x14, 0xa3, 0x04, 0x00, 0x00, 0x1a, 0xba, 0x03, 0xf3, 0x00, 0x7f, 0xa2, 0x00, 0x01,
    0xc0, 0x80, 0x80, 0xde, 0x10, 0x8a, 0xa2, 0xe2, 0x20, 0x00, 0x00, 0x00, 0x88, 0x81, 0x00, 0x94,
    0x40, 0xa0, 0xc0, 0x16, 0x16, 0x00, 0x00, 0x82, 0x00, 0x00, 0x00, 0x00, 0x00, 0x01, 0x01, 0x01,
    0x01, 0x01, 0x01, 0x00, 0x00, 0x00, 0x00, 0x00, 0x01, 0x01, 0x00, 0x00, 0x00, 0x00, 0x00, 0x01,
    0x01, 0x00, 0x00, 0x00, 0x00, 0x00, 0x00, 0x00, 0x00, 0x00, 0x00, 0x00, 0x00, 0x00, 0xca, 0x00,
    0x06, 0xe0, 0x88, 0x11, 0x89, 0x02, 0x55, 0x01, 0x7a, 0x04, 0x00, 0x00, 0x11, 0x01, 0x06, 0x00,
    0x01, 0x00, 0x10, 0x50, 0x20, 0x02, 0x00, 0xf3, 0x80, 0x80, 0x80, 0x00, 0x00, 0x47, 0x27, 0x8a,
    0x83, 0x00, 0x00, 0x00, 0x00, 0x00, 0x00, 0x00, 0x00, 0x00, 0x00, 0x00, 0x00, 0x00, 0x00, 0x00,
    0x00, 0x00, 0x00, 0x01, 0x01, 0x01, 0x01, 0x83, 0x00, 0x00, 0x00, 0x00, 0x00, 0x00, 0x1f, 0x1f,
    0x00, 0x00, 0x00, 0x00, 0x00, 0x00, 0x00, 0x00, 0x01, 0x01, 0x01, 0x01, 0x01, 0x01, 0x01, 0x01,
    0x01, 0x01, 0x01, 0x01, 0x01, 0x01, 0x01, 0x01, 0x01, 0x01, 0x00, 0x00, 0x00, 0x00, 0x82, 0x00,
    0x01, 0x01, 0x01, 0x01, 0x01, 0x01, 0x01, 0x01, 0x01, 0x01, 0x01, 0x01, 0x01, 0x01, 0x01, 0x01,
    0x01, 0x01, 0x01, 0x01, 0x01, 0x01, 0x00, 0x7e, 0x00, 0x00, 0x00, 0x00, 0x01, 0x01, 0x01, 0x01,
    0x01, 0x00, 0x00, 0x00, 0x00, 0x00, 0x00, 0x00, 0x00, 0x83, 0x00, 0x00, 0x00, 0x00, 0x00, 0x00,
    0x75, 0x75, 0x00, 0x00, 0x00, 0x00, 0x00, 0x00, 0x00, 0x00, 0x00, 0x00, 0x00, 0x00, 0x00, 0x00
  ]

  /** The two register files of one camera. */
  datatype Regs = Regs(controller: seq<byte>, sensor: seq<byte>) {
    predicate Valid() {
      |controller| == 256 && |sensor| == 256
    }
  }

  /** The register files as a device reset leaves them: both factory
      tables fill their register file exactly. */
  function FactoryRegs(): (r: Regs)
    ensures r.Valid()
  {
    Regs(Ov519Defaults, Ov7648Defaults)
  }

  /** `index & 0xff`: the low byte of a 16-bit `wIndex` names the register;
      the high byte is dropped. */
  function RegIndex(index: int): (r: int)
    requires IsWord(index)
    ensures 0 <= r < 256
    ensures index == (index / 256) * 256 + r
  {
    index % 256
  }

  /** A register write is either a plain store or a store preceded by a
      transfer on the virtual I2C bus. */
  datatype RelayKind = I2cWrite | I2cRead
  datatype WriteOp = PlainWrite | RelayWrite(kind: RelayKind)

  /** The relay fires only for the unmasked index 0x47 together with
      command byte 1 or 5. */
  function Classify(index: int, cmd: byte): (op: WriteOp)
    ensures op == RelayWrite(I2cWrite) <==> index == I2cCommand && cmd == I2cWriteCmd
    ensures op == RelayWrite(I2cRead) <==> index == I2cCommand && cmd == I2cReadCmd
  {
    if index == I2cCommand && cmd == I2cWriteCmd then RelayWrite(I2cWrite)
    else if index == I2cCommand && cmd == I2cReadCmd then RelayWrite(I2cRead)
    else PlainWrite
  }

  /** One byte crosses the virtual I2C bus, addressed by the controller's
      current I2C registers. */
  function Relay(r: Regs, kind: RelayKind): (r': Regs)
    requires r.Valid()
    ensures r'.Valid()
    ensures kind == I2cWrite ==>
      && r'.controller == r.controller
      && r'.sensor[r.controller[I2cWriteAddr]] == r.controller[I2cData]
      && forall j | 0 <= j < 256 && j != r.controller[I2cWriteAddr] :: r'.sensor[j] == r.sensor[j]
    ensures kind == I2cRead ==>
      && r'.sensor == r.sensor
      && r'.controller[I2cData] == r.sensor[r.controller[I2cReadAddr]]
      && forall j | 0 <= j < 256 && j != I2cData :: r'.controller[j] == r.controller[j]
  {
    match kind
    case I2cWrite =>
      r.(sensor := r.sensor[r.controller[I2cWriteAddr] := r.controller[I2cData]])
    case I2cRead =>
      r.(controller := r.controller[I2cData := r.sensor[r.controller[I2cReadAddr]]])
  }

  /** Vendor request 0x4101: the relay (if any) runs first, on the current
      register contents, and then `b` is stored at `controller[index & 0xff]`.
      The payload byte is both the command and the stored value. */
  function VendorWrite(r: Regs, index: int, b: byte): (r': Regs)
    requires r.Valid() && IsWord(index)
    ensures r'.Valid()
    ensures r'.controller[RegIndex(index)] == b
    ensures index != I2cCommand ==>
      && r'.sensor == r.sensor
      && forall j | 0 <= j < 256 && j != RegIndex(index) :: r'.controller[j] == r.controller[j]
  {
    var relayed := match Classify(index, b)
      case PlainWrite => r
      case RelayWrite(kind) => Relay(r, kind);
    relayed.(controller := relayed.controller[RegIndex(index) := b])
  }

  /** Vendor request 0xc101: `length` copies of the one addressed
      controller register (a replicating read port, not a sequential one). */
  function VendorRead(r: Regs, index: int, length: nat): (out: seq<byte>)
    requires r.Valid() && IsWord(index)
    ensures |out| == length
    ensures forall i | 0 <= i < length :: out[i] == r.controller[RegIndex(index)]
  {
    seq(length, _ => r.controller[RegIndex(index)])
  }

  /** Command 1 on register 0x47: the sensor register named by 0x42 takes
      the value of 0x45; no other sensor byte changes, and in the
      controller only 0x47 changes. */
  lemma I2cWriteThroughBridge(r: Regs)
    requires r.Valid()
    ensures var r' := VendorWrite(r, I2cCommand, I2cWriteCmd);
      && r'.sensor[r.controller[I2cWriteAddr]] == r.controller[I2cData]
      && (forall j | 0 <= j < 256 && j != r.controller[I2cWriteAddr] :: r'.sensor[j] == r.sensor[j])
      && r'.controller == r.controller[I2cCommand := I2cWriteCmd]
  {
  }

  /** Command 5 on register 0x47: register 0x45 takes the value of the
      sensor register named by 0x43, 0x47 holds 5, and the sensor and every
      other controller byte are unchanged. */
  lemma I2cReadThroughBridge(r: Regs)
    requires r.Valid()
    ensures var r' := VendorWrite(r, I2cCommand, I2cReadCmd);
      && r'.controller[I2cData] == r.sensor[r.controller[I2cReadAddr]]
      && r'.controller[I2cCommand] == I2cReadCmd
      && (forall j | 0 <= j < 256 && j != I2cData && j != I2cCommand :: r'.controller[j] == r.controller[j])
      && r'.sensor == r.sensor
  {
  }

  /** Any other command byte on 0x47 is a plain store. */
  lemma OtherCommandIsPlainStore(r: Regs, b: byte)
    requires r.Valid() && b != I2cWriteCmd && b != I2cReadCmd
    ensures VendorWrite(r, I2cCommand, b) == Regs(r.controller[I2cCommand := b], r.sensor)
  {
  }

  /** A write followed by a read of the same index returns the written
      byte, replicated over the whole read. */
  lemma WriteThenRead(r: Regs, index: int, b: byte, length: nat)
    requires r.Valid() && IsWord(index)
    ensures VendorRead(VendorWrite(r, index, b), index, length) == seq(length, _ => b)
  {
  }
}
