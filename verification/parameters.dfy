/**
 * The parameter access layer: the payloads of read and write commands, the value slot of
 * a reply, and the read-back comparisons that make a write "verified".
 */
module Parameters {
  import opened Wrappers
  import opened Constants
  import opened Bytes
  import opened Frame

  /**
   * IEEE-754 single precision, kept abstract: `encode` is `struct.pack('<f', x)` read as a
   * 32-bit word, `decode` is `struct.unpack('<f', ...)` of such a word.
   */
  datatype Float32Codec = Float32Codec(encode: real -> bv32, decode: bv32 -> real)

  /** A value written to a parameter: an unsigned 32-bit integer (the run mode) or a float. */
  datatype ParamValue = IntValue(n: bv32) | FloatValue(x: real)

  /** The 32 bits a value is written as. */
  function ValueBits(v: ParamValue, codec: Float32Codec): bv32
  {
    match v
    case IntValue(n) => n
    case FloatValue(x) => codec.encode(x)
  }

  /** `_read_parameter`'s payload: the index little-endian, then six zero bytes. */
  function ReadPayload(index: ParameterIndex): (p: seq<byte>)
    ensures |p| == 8
    ensures FromLE16(p[..2]) == index.Value() as bv16
    ensures forall i :: 2 <= i < 8 ==> p[i] == 0
  {
    var idx := LE16(index.Value() as bv16);
    LE16RoundTrip(index.Value() as bv16);
    assert (idx + Zeros(6))[..2] == idx;
    idx + Zeros(6)
  }

  /** `_write_parameter`'s payload: the index little-endian, two zero bytes, then the value little-endian. */
  function WritePayload(index: ParameterIndex, value: ParamValue, codec: Float32Codec): (p: seq<byte>)
    ensures |p| == 8
    ensures FromLE16(p[..2]) == index.Value() as bv16
    ensures p[2] == 0 && p[3] == 0
    ensures FromLE32(p[4..]) == ValueBits(value, codec)
  {
    var idx, bits := LE16(index.Value() as bv16), LE32(ValueBits(value, codec));
    LE16RoundTrip(index.Value() as bv16);
    LE32RoundTrip(ValueBits(value, codec));
    var p := idx + [0, 0] + bits;
    assert p[..2] == idx && p[4..] == bits;
    p
  }

  /** `response[11:15]`: the four value bytes of a reply (payload bytes 4..7). */
  function ValueSlot(r: seq<byte>): (v: seq<byte>)
    requires |r| == FrameLength
    ensures |v| == 4
    ensures forall i :: 0 <= i < 4 ==> v[i] == r[7 + 4 + i]
  {
    r[11..15]
  }

  /** What `_read_parameter` returns for the reply `_send_and_receive` handed back. */
  function ReadValue(reply: Option<seq<byte>>): (v: Option<seq<byte>>)
    requires reply.Some? ==> |reply.value| == FrameLength
    ensures v.Some? <==> reply.Some?
    ensures v.Some? ==> |v.value| == 4 && v.value == reply.value[11..15]
  {
    match reply
    case Some(r) => Some(ValueSlot(r))
    case None => None
  }

  /**
   * The value slot of a write frame is where its value sits: a reply laid out like the
   * write frame hands back exactly the bits that were written.
   */
  lemma WriteFrameValueSlot(motorId: nat, hostId: nat, index: ParameterIndex, value: ParamValue, codec: Float32Codec)
    requires motorId < 0x100 && hostId < 0x10000
    ensures var f := CreateFrame(WriteParam, motorId, hostId, WritePayload(index, value, codec), hostId).value;
      FromLE32(ValueSlot(f)) == ValueBits(value, codec)
  {
    var p := WritePayload(index, value, codec);
    var f := CreateFrame(WriteParam, motorId, hostId, p, hostId).value;
    assert f[7..15] == p;
    assert ValueSlot(f) == p[4..];
  }

  /** `_set_run_mode`'s check: the reply arrived and the first value byte, read as an integer, is the mode's value. */
  predicate ModeConfirmed(reply: Option<seq<byte>>, mode: RunMode)
    ensures reply.None? ==> !ModeConfirmed(reply, mode)
    ensures ModeConfirmed(reply, mode) ==>
      && reply.Some? && |reply.value| == FrameLength
      && forall other: RunMode :: other != mode ==> ValueSlot(reply.value)[0] as nat != other.Value()
  {
    reply.Some? && |reply.value| == FrameLength && ValueSlot(reply.value)[0] as nat == mode.Value()
  }

  /**
   * Comparing only the first byte is exact for run modes: a value byte confirms at most one
   * mode, and a reply echoing the written run-mode value confirms that mode.
   */
  lemma ModeReadBackExact(motorId: nat, hostId: nat, mode: RunMode, other: RunMode, codec: Float32Codec)
    requires motorId < 0x100 && hostId < 0x10000
    ensures var f := CreateFrame(WriteParam, motorId, hostId, WritePayload(RunModeIndex, IntValue(mode.Value() as bv32), codec), hostId);
      ModeConfirmed(f, mode) && (ModeConfirmed(f, other) ==> other == mode)
  {
    var p := WritePayload(RunModeIndex, IntValue(mode.Value() as bv32), codec);
    var f := CreateFrame(WriteParam, motorId, hostId, p, hostId).value;
    WriteFrameValueSlot(motorId, hostId, RunModeIndex, IntValue(mode.Value() as bv32), codec);
    assert ValueSlot(f)[0] == p[4];
    match mode
    case Operation =>
    case PositionPP =>
    case Velocity =>
    case Current =>
    case PositionCSP =>
  }

  /** The relative tolerance of a verified float write. */
  const RelTol: real := 0.000001

  function Abs(x: real): (r: real)
    ensures r >= 0.0 && (r == x || r == -x)
  {
    if x < 0.0 then -x else x
  }

  function Max(x: real, y: real): (r: real)
    ensures r >= x && r >= y && (r == x || r == y)
  {
    if x >= y then x else y
  }

  /**
   * `math.isclose(a, b, rel_tol=1e-6)` with its default absolute tolerance of zero, over reals,
   * computed as CPython does; it agrees with the documented definition
   * `abs(a - b) <= rel_tol * max(abs(a), abs(b))`.
   */
  predicate IsClose(a: real, b: real)
    ensures IsClose(a, b) <==> Abs(a - b) <= RelTol * Max(Abs(a), Abs(b))
  {
    a == b || Abs(b - a) <= Abs(RelTol * b) || Abs(b - a) <= Abs(RelTol * a) || Abs(b - a) <= 0.0
  }

  /** The closeness test does not depend on the order of its arguments and accepts equal values. */
  lemma IsCloseSymmetricReflexive(a: real, b: real)
    ensures IsClose(a, a)
    ensures IsClose(a, b) <==> IsClose(b, a)
  {
  }

  /**
   * `_set_float_parameter`'s check: the reply arrived and the float in its value slot is close
   * to the value written. No reply never confirms; a reply echoing the value exactly always does.
   */
  predicate FloatConfirmed(reply: Option<seq<byte>>, value: real, codec: Float32Codec)
    ensures reply.None? ==> !FloatConfirmed(reply, value, codec)
    ensures reply.Some? && |reply.value| == FrameLength && codec.decode(FromLE32(ValueSlot(reply.value))) == value
            ==> FloatConfirmed(reply, value, codec)
  {
    reply.Some? && |reply.value| == FrameLength && IsClose(codec.decode(FromLE32(ValueSlot(reply.value))), value)
  }

  /**
   * A verified float write succeeds on a reply that echoes the write frame whenever single
   * precision rounds the value within the tolerance: the read-back check absorbs that rounding.
   */
  lemma FloatEchoConfirmed(motorId: nat, hostId: nat, index: ParameterIndex, value: real, codec: Float32Codec)
    requires motorId < 0x100 && hostId < 0x10000
    requires IsClose(codec.decode(codec.encode(value)), value)
    ensures FloatConfirmed(CreateFrame(WriteParam, motorId, hostId, WritePayload(index, FloatValue(value), codec), hostId), value, codec)
  {
    WriteFrameValueSlot(motorId, hostId, index, FloatValue(value), codec);
  }
}
