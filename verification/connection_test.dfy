/**
 * The stand-alone frame encoder of the manual connectivity check: same identifier packing
 * as the controller, with the data field given as one integer written big-endian.
 */
module ConnectionTest {
  import opened Wrappers
  import opened Constants
  import opened Bytes
  import opened Frame

  const MotorCanId: nat := 127  // the motor id a fresh motor answers to
  const HostCanId: nat := 253   // the host id used by the check

  /** `create_at_command`: the frame for a command type, motor, host and 64-bit data value. */
  function CreateAtCommand(commandType: nat, motorId: nat, hostId: nat, dataPayload: nat): (f: seq<byte>)
    requires commandType < 32 && motorId < 0x100 && hostId < 0x10000 && dataPayload < 0x1_0000_0000_0000_0000
    ensures |f| == FrameLength
    ensures f[..2] == Header && f[6] == ExtendedFrameFlag && f[15..] == Tail
    ensures FromBE64(f[7..15]) == dataPayload as bv64
    ensures FromBE32(f[2..6]) & 0x7 == 0x4
    ensures FrameCanId(f) == CanId(commandType, hostId, motorId)
  {
    var encodedId := AdapterId(CanId(commandType, hostId, motorId));
    var data := BE64(dataPayload as bv64);
    var f := Header + BE32(encodedId) + [ExtendedFrameFlag] + data + Tail;
    assert f[2..6] == BE32(encodedId) && f[7..15] == data;
    BE32RoundTrip(encodedId);
    BE64RoundTrip(dataPayload as bv64);
    f
  }

  /**
   * `create_at_command` and `_create_frame` build the same frame: the command type given as
   * its code, the secondary field `_create_frame` would encode, and the data value written
   * big-endian as the payload.
   */
  lemma AgreesWithCreateFrame(cmd: CommandType, motorId: nat, area2: nat, dataPayload: bv64, hostId: nat)
    requires motorId < 0x100 && area2 < 0x10000 && hostId < 0x10000
    ensures CreateFrame(cmd, motorId, area2, BE64(dataPayload), hostId)
         == Some(CreateAtCommand(cmd.Value(), motorId, SecondaryField(cmd, area2, hostId), dataPayload as nat))
  {
    assert (dataPayload as nat) as bv64 == dataPayload;
  }

  /**
   * With a zero data value the check's frame is the controller's device-id probe for the
   * same motor and host, whatever secondary field the caller passed.
   */
  lemma ProbeAgreesWithCreateFrame(motorId: nat, area2: nat, hostId: nat)
    requires motorId < 0x100 && area2 < 0x10000 && hostId < 0x10000
    ensures CreateFrame(GetDeviceId, motorId, area2, Zeros(8), hostId) == Some(CreateAtCommand(0, motorId, hostId, 0))
  {
    assert BE64(0) == Zeros(8);
    AgreesWithCreateFrame(GetDeviceId, motorId, area2, 0, hostId);
  }

  /** The frame the connectivity check sends with its default settings. */
  lemma DefaultProbeFrame()
    ensures CreateAtCommand(0, MotorCanId, HostCanId, 0)
         == [0x41, 0x54, 0x00, 0x07, 0xEB, 0xFC, 0x08, 0x00, 0x00, 0x00, 0x00, 0x00, 0x00, 0x00, 0x00, 0x0D, 0x0A]
  {
  }
}
