/**
 * The adapter's fixed 17-byte "AT" frame: building a command frame, the shape test a
 * reply must pass, and the status a reply carries in its identifier.
 *
 *   [0:2] "AT" | [2:6] adapter-encoded id, big-endian | [6] 0x08 | [7:15] payload | [15:17] CR LF
 */
module Frame {
  import opened Wrappers
  import opened Constants
  import opened Bytes

  const Header: seq<byte> := [0x41, 0x54]  // "AT"
  const ExtendedFrameFlag: byte := 0x08
  const Tail: seq<byte> := [0x0D, 0x0A]    // CR LF
  const FrameLength: nat := 17

  /** Control commands whose secondary field is always the host id, whatever the caller passed. */
  predicate CarriesHostId(cmd: CommandType)
  {
    cmd == GetDeviceId || cmd == Enable || cmd == Disable
  }

  /** The secondary field `_create_frame` actually encodes. */
  function SecondaryField(cmd: CommandType, area2: nat, hostId: nat): (a: nat)
    ensures cmd == GetDeviceId || cmd == Enable || cmd == Disable ==> a == hostId
    ensures cmd == ReadParam || cmd == WriteParam ==> a == area2
  {
    if CarriesHostId(cmd) then hostId else area2
  }

  /** The 29-bit extended CAN identifier: command code in bits 24..28, secondary field in bits 8..23, motor in bits 0..7. */
  function CanId(code: nat, area2: nat, motorId: nat): (id: bv32)
    requires code < 32 && area2 < 0x10000 && motorId < 0x100
    ensures id < 0x2000_0000
    ensures id & 0xFF == motorId as bv32
    ensures (id >> 8) & 0xFFFF == area2 as bv32
    ensures id >> 24 == code as bv32
  {
    var c, a, m := code as bv32, area2 as bv32, motorId as bv32;
    assert c < 32 && a < 0x10000 && m < 0x100;
    (c << 24) | (a << 8) | m
  }

  /** The adapter's transform of a 29-bit identifier: shifted left by three, with 0b100 marking an extended frame. */
  function AdapterId(canId: bv32): (e: bv32)
    requires canId < 0x2000_0000
    ensures e >> 3 == canId
    ensures e & 0x7 == 0x4
  {
    (canId << 3) | 0x4
  }

  /**
   * `_create_frame`: the frame for a command to a motor. The result is None exactly when the
   * payload is not 8 bytes long, the case the source stops with a failed assertion.
   */
  function CreateFrame(cmd: CommandType, motorId: nat, area2: nat, payload: seq<byte>, hostId: nat): (f: Option<seq<byte>>)
    requires motorId < 0x100 && area2 < 0x10000 && hostId < 0x10000
    ensures f.Some? <==> |payload| == 8
    ensures f.Some? ==> |f.value| == FrameLength
    ensures f.Some? ==> f.value[..2] == Header && f.value[6] == ExtendedFrameFlag
    ensures f.Some? ==> f.value[7..15] == payload && f.value[15..] == Tail
  {
    var id := AdapterId(CanId(cmd.Value(), SecondaryField(cmd, area2, hostId), motorId));
    var frame := Header + BE32(id) + [ExtendedFrameFlag] + payload + Tail;
    if |frame| == FrameLength then Some(frame) else None
  }

  /** The 29-bit identifier a frame carries: bytes 2..5 read big-endian, shifted right by three. */
  function FrameCanId(f: seq<byte>): (id: bv32)
    requires |f| >= 6
    ensures id < 0x2000_0000
    ensures (id << 3) | (FromBE32(f[2..6]) & 0x7) == FromBE32(f[2..6])
  {
    FromBE32(f[2..6]) >> 3
  }

  /**
   * Reading back the identifier of a created frame recovers every field that went into it:
   * the motor id, the secondary field (the host id for control commands) and the command code.
   */
  lemma CreateFrameFields(cmd: CommandType, motorId: nat, area2: nat, payload: seq<byte>, hostId: nat)
    requires motorId < 0x100 && area2 < 0x10000 && hostId < 0x10000 && |payload| == 8
    ensures var f := CreateFrame(cmd, motorId, area2, payload, hostId).value;
      && FromBE32(f[2..6]) & 0x7 == 0x4
      && FrameCanId(f) & 0xFF == motorId as bv32
      && (FrameCanId(f) >> 8) & 0xFFFF == SecondaryField(cmd, area2, hostId) as bv32
      && FrameCanId(f) >> 24 == cmd.Value() as bv32
  {
    CreatedFrameIdentifier(cmd, motorId, area2, payload, hostId);
  }

  /** The identifier bytes of a created frame decode to the adapter form of the frame's CAN identifier. */
  lemma CreatedFrameIdentifier(cmd: CommandType, motorId: nat, area2: nat, payload: seq<byte>, hostId: nat)
    requires motorId < 0x100 && area2 < 0x10000 && hostId < 0x10000 && |payload| == 8
    ensures FromBE32(CreateFrame(cmd, motorId, area2, payload, hostId).value[2..6])
         == AdapterId(CanId(cmd.Value(), SecondaryField(cmd, area2, hostId), motorId))
    ensures FrameCanId(CreateFrame(cmd, motorId, area2, payload, hostId).value)
         == CanId(cmd.Value(), SecondaryField(cmd, area2, hostId), motorId)
  {
    var id := AdapterId(CanId(cmd.Value(), SecondaryField(cmd, area2, hostId), motorId));
    var f := CreateFrame(cmd, motorId, area2, payload, hostId).value;
    assert f[2..6] == BE32(id);
    BE32RoundTrip(id);
  }

  predicate StartsWith(s: seq<byte>, prefix: seq<byte>)
  {
    |prefix| <= |s| && s[..|prefix|] == prefix
  }

  predicate EndsWith(s: seq<byte>, suffix: seq<byte>)
  {
    |suffix| <= |s| && s[|s| - |suffix|..] == suffix
  }

  /** The test `_send_and_receive` applies to the line it read: non-empty, "AT" first, CR LF last, 17 bytes. */
  predicate IsValidResponse(r: seq<byte>)
    ensures IsValidResponse(r) <==> |r| == FrameLength && r[..2] == Header && r[15..] == Tail
  {
    |r| > 0 && StartsWith(r, Header) && EndsWith(r, Tail) && |r| == FrameLength
  }

  /**
   * What `_send_and_receive` returns for the line read from the adapter (None: nothing
   * arrived in time, or the read failed): that line when it has the frame's shape, else None.
   */
  function AcceptResponse(raw: Option<seq<byte>>): (r: Option<seq<byte>>)
    ensures r.Some? <==> raw.Some? && |raw.value| == FrameLength && raw.value[..2] == Header && raw.value[15..] == Tail
    ensures r.Some? ==> r == raw
  {
    if raw.Some? && IsValidResponse(raw.value) then raw else None
  }

  /** Every frame `_create_frame` builds passes the acceptance test unchanged. */
  lemma CreatedFrameAccepted(cmd: CommandType, motorId: nat, area2: nat, payload: seq<byte>, hostId: nat)
    requires motorId < 0x100 && area2 < 0x10000 && hostId < 0x10000 && |payload| == 8
    ensures var f := CreateFrame(cmd, motorId, area2, payload, hostId);
      AcceptResponse(f) == f
  {
  }

  /** The status field of a reply: `((from_bytes(r[2:6], 'big') >> 3) >> 22) & 0b11`. */
  function StatusBits(r: seq<byte>): (s: bv32)
    requires |r| >= 6
    ensures s < 4
    ensures s == (FromBE32(r[2..6]) >> 25) & 0x3
  {
    (FrameCanId(r) >> 22) & 0x3
  }

  /** The motor status a reply reports, as `enable` decodes it. */
  function ReplyStatus(r: seq<byte>): (s: MotorStatus)
    requires |r| >= 6
    ensures s == Run <==> StatusBits(r) == 2
    ensures s == Reset <==> StatusBits(r) == 0
    ensures s == Calibration <==> StatusBits(r) == 1
    ensures s == Unknown <==> StatusBits(r) == 3
  {
    DecodeStatus(StatusBits(r) as nat)
  }

  /**
   * The status bits of a frame are bits 14..15 of its secondary field: a reply built like a
   * command frame reports the status placed there.
   */
  lemma StatusOfCreatedFrame(cmd: CommandType, motorId: nat, area2: nat, payload: seq<byte>, hostId: nat)
    requires motorId < 0x100 && area2 < 0x10000 && hostId < 0x10000 && |payload| == 8
    ensures StatusBits(CreateFrame(cmd, motorId, area2, payload, hostId).value)
         == ((SecondaryField(cmd, area2, hostId) as bv32) >> 14) & 0x3
  {
    CreateFrameFields(cmd, motorId, area2, payload, hostId);
  }

  /** `enable` succeeds on a reply exactly when it arrived, had the frame's shape and reports RUN. */
  predicate EnableConfirmed(reply: Option<seq<byte>>)
    ensures EnableConfirmed(reply) <==> reply.Some? && |reply.value| >= 6 && StatusBits(reply.value) == Run.Value() as bv32
  {
    reply.Some? && |reply.value| >= 6 && ReplyStatus(reply.value) == Run
  }
}
