/** The Xbox Video Camera (USB 045e:028c): a device object holding the
    bridge and sensor register files, the IN stream counters, and the
    encoded frame being streamed. Its handlers update those fields in place
    as the value-level definitions in CameraRegisters and CameraStream say. */
module XboxCamera {
  import opened Usb
  import opened CameraRegisters
  import CameraStream

  /** Size of the encoded-frame buffer: 320 x 240 pixels, 2 bytes each. */
  const JpgCapacity: nat := 320 * 240 * 2

  class Camera {
    const controller: array<byte>
    const sensor: array<byte>
    var state: nat
    var offset: nat
    /** The current encoded frame and its length, and the synthetic frame
        counter; one set per device here. */
    const jpgData: array<byte>
    var jpgSize: nat
    var frameId: byte

    ghost predicate Valid()
      reads this
    {
      && controller.Length == 256
      && sensor.Length == 256
      && controller != sensor
      && jpgData.Length == JpgCapacity
      && jpgSize <= JpgCapacity
    }

    /** The two register files as a value. */
    ghost function Registers(): Regs
      reads this, controller, sensor
    {
      Regs(controller[..], sensor[..])
    }

    /** The stream counters as a value. */
    ghost function Counters(): CameraStream.Stream
      reads this
    {
      CameraStream.Stream(state, offset, jpgSize)
    }

    /** A freshly created device: the device state is zero-filled, and the
        frame length and counter start at 0; no frame is encoded yet. */
    constructor ()
      ensures Valid() && fresh(controller) && fresh(sensor) && fresh(jpgData)
      ensures controller[..] == seq(256, _ => 0) && sensor[..] == seq(256, _ => 0)
      ensures state == 0 && offset == 0 && jpgSize == 0 && frameId == 0
    {
      controller := new byte[256](_ => 0);
      sensor := new byte[256](_ => 0);
      jpgData := new byte[JpgCapacity];
      state, offset, jpgSize, frameId := 0, 0, 0, 0;
    }

    /** Device reset: both register files take their factory contents and
        the stream restarts at state 0. The post-state does not depend on
        the pre-state, so a second reset changes nothing. */
    method HandleReset()
      requires Valid()
      modifies this`state, this`offset, controller, sensor
      ensures Valid()
      ensures Registers() == FactoryRegs()
      ensures state == 0 && offset == 0
    {
      var c, n := Ov519Defaults, Ov7648Defaults;
      assert |c| == 256 && |n| == 256;
      Memcpy(controller, 0, c);
      assert controller[..] == c;
      Memcpy(sensor, 0, n);
      assert sensor[..] == n;
      state := 0;
      offset := 0;
    }

    /** A control transfer. `handled` is whether the framework's
        standard-request handler accepted the request; this device goes on
        to its vendor requests either way, so it has no effect here.
        `value` is not used. */
    method HandleControl(p: Packet, handled: bool, request: int, value: int, index: int,
                         length: int, data: array<byte>)
      requires Valid() && ControlBuffer(data, length) && IsWord(index)
      requires data != controller && data != sensor
      modifies controller, sensor, data, p
      ensures Valid()
      ensures request == VendorOutRequest1 ==>
        && Registers() == VendorWrite(old(Registers()), index, old(data[0]))
        && data[..] == old(data[..])
        && p.actualLength == 1
        && p.status == old(p.status) && p.payload == old(p.payload)
      ensures request == VendorInRequest1 ==>
        && Registers() == old(Registers())
        && data[..length] == VendorRead(old(Registers()), index, length)
        && data[length..] == old(data[length..])
        && p.actualLength == length
        && p.status == old(p.status) && p.payload == old(p.payload)
      ensures request != VendorOutRequest1 && request != VendorInRequest1 ==>
        && Registers() == old(Registers())
        && data[..] == old(data[..])
        && unchanged(p)
    {
      if request == VendorOutRequest1 {
        var b := data[0];
        if index == I2cCommand {
          if b == I2cWriteCmd {
            sensor[controller[I2cWriteAddr]] := controller[I2cData];
          } else if b == I2cReadCmd {
            controller[I2cData] := sensor[controller[I2cReadAddr]];
          }
        }
        controller[RegIndex(index)] := b;
        p.actualLength := 1;
      } else if request == VendorInRequest1 {
        for i := 0 to length
          invariant forall k | 0 <= k < i :: data[k] == controller[RegIndex(index)]
          invariant data[i..] == old(data[i..])
          invariant Registers() == old(Registers()) && unchanged(p)
        {
          data[i] := controller[RegIndex(index)];
        }
        p.actualLength := length;
      }
    }

    /** The encoder run that starts each frame: the frame counter advances
        and the encoder's output is written over the start of the frame
        buffer; bytes past it keep what an earlier frame left there. */
    method ReadJpgData(encoded: seq<byte>)
      requires Valid() && |encoded| <= JpgCapacity
      modifies this`frameId, this`jpgSize, jpgData
      ensures Valid()
      ensures frameId == CameraStream.NextFrameId(old(frameId))
      ensures jpgSize == |encoded|
      ensures jpgData[..] == encoded + old(jpgData[|encoded|..])
    {
      frameId := CameraStream.NextFrameId(frameId);
      Memcpy(jpgData, 0, encoded);
      jpgSize := |encoded|;
    }

    /** A data packet on the isochronous endpoint. `pk` is the handler's
        768-byte scratch buffer with whatever it held before, and `encoded`
        is what the encoder produces if this call starts a new frame. An IN
        call follows CameraStream.Step: delivered packets are the whole of
        `pk`, whose bytes past the header, chunk or footer are stale. OUT
        packets change nothing. */
    method HandleData(p: Packet, pid: Pid, pk: array<byte>, encoded: seq<byte>)
      requires Valid() && pk.Length == CameraStream.PacketSize && |encoded| <= JpgCapacity
      requires pk != jpgData && pk != controller && pk != sensor
      modifies this`state, this`offset, this`jpgSize, this`frameId, jpgData, pk, p
      ensures Valid()
      ensures pid != TokenIn ==>
        && Counters() == old(Counters()) && frameId == old(frameId)
        && jpgData[..] == old(jpgData[..]) && pk[..] == old(pk[..])
        && unchanged(p)
      ensures pid == TokenIn ==>
        var step := CameraStream.Step(old(Counters()), |encoded|);
        var ev := step.1;
        && Counters() == step.0
        && (ev == CameraStream.Header ==>
              && frameId == CameraStream.NextFrameId(old(frameId))
              && jpgData[..] == encoded + old(jpgData[|encoded|..])
              && pk[..] == CameraStream.HeaderBytes + jpgData[..CameraStream.FirstChunk])
        && (ev != CameraStream.Header ==>
              frameId == old(frameId) && jpgData[..] == old(jpgData[..]))
        && (ev.Body? ==>
              && pk[..ev.len] == jpgData[ev.start..ev.start + ev.len]
              && pk[ev.len..] == old(pk[ev.len..]))
        && (ev == CameraStream.Footer ==>
              pk[..] == CameraStream.FooterBytes + old(pk[CameraStream.HeaderSize..]))
        && (ev == CameraStream.Nak ==>
              && p.status == Nak && p.actualLength == 0
              && p.payload == old(p.payload) && pk[..] == old(pk[..]))
        && (ev != CameraStream.Nak ==>
              && p.status == old(p.status)
              && p.actualLength == old(p.actualLength) + CameraStream.PacketSize
              && p.payload == old(p.payload) + pk[..])
    {
      if pid == TokenIn {
        if state == 0 {
          ReadJpgData(encoded);
          Memcpy(pk, 0, CameraStream.HeaderBytes);
          Memcpy(pk, CameraStream.HeaderSize, jpgData[..CameraStream.FirstChunk]);
          offset := CameraStream.FirstChunk;
          state := state + 1;
          p.Copy(pk[..]);
        } else if offset < jpgSize {
          var len := CameraStream.Min(jpgSize - offset, CameraStream.PacketSize);
          Memcpy(pk, 0, jpgData[offset..offset + len]);
          offset := offset + len;
          state := state + 1;
          p.Copy(pk[..]);
        } else if state == CameraStream.RestartState {
          state := 0;
          p.status := Nak;
          p.actualLength := 0;
        } else if state >= CameraStream.IdleState {
          state := state + 1;
          p.status := Nak;
          p.actualLength := 0;
        } else {
          Memcpy(pk, 0, CameraStream.FooterBytes);
          state := CameraStream.IdleState;
          p.Copy(pk[..]);
        }
      }
    }
  }
}
