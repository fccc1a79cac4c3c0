# RobStride motor controller over a USB-CAN "AT" adapter — Dafny model

RobStride servo motors are driven through a USB-CAN adapter that speaks a fixed 17-byte "AT"
frame. Each frame holds "AT", a 29-bit extended CAN identifier, 8 data bytes and CR LF. The
identifier packs three fields: the command code (bits 24..28), a secondary field (bits 8..23)
and the motor id (bits 0..7). The adapter shifts it left by three and ORs in `0b100`.

This project models:

- the enumerations the protocol uses (`constants.dfy`);
- the byte-order conversions (`bytes.dfy`);
- the frame codec, the shape test a reply must pass and the status decoding (`frame.dfy`);
- the parameter payloads and read-back checks (`parameters.dfy`);
- the stand-alone encoder of the connectivity check (`connection_test.dfy`);
- the serial link, as an oracle (`transport.dfy`);
- the motor records and the controller that changes them according to what the link returns
  (`controller.dfy`).

The controller is imperative, as in the source:

- `RobStride` is a class whose enable flag and run mode are updated in place.
- `RobStrideController` holds the motor map and the bus.
- Its methods state the new motor state and the exact sequence of frames written.

Each frame written is recorded by the request it encodes. `Controller.FrameOf` gives its
bytes, and `Controller.FrameOfFields` proves that those bytes carry the request's command,
host and motor.

The link is `Transport.Bus`. It is modelled by:

- whether opening the port succeeds;
- whether a writer is open;
- the log of frames written;
- a fixed function giving the line the adapter returns for the n-th frame (None for a timeout
  or a failed read).

Floats are `real`. IEEE-754 single-precision packing is a parameter (`Float32Codec`).
`math.isclose(rel_tol=1e-6)` is written out over reals. `RobStrideLimits` is the datatype
`Controller.Limits` (src/robstride.py:24-39), seven optional fields.

Behaviours of the code worth knowing:

- Setting a run mode does not check whether the motor is enabled. It does not check that the
  id is registered either, so registration is a precondition of `SetRunMode`.
- The target setters only check that the id is registered, not that the motor is enabled or
  in a given mode.
- The status of an enable reply is bits 22..23 of the 29-bit identifier, decoded through
  `MotorStatus`. Status value 3 is UNKNOWN.

## Model

| member | source | states |
|---|---|---|
| Constants.CommandType.Value | src/constants.py:4-11 | the command codes 0x00, 0x03, 0x04, 0x11, 0x12; every code is below 32, so it fits the 5-bit command field |
| Constants.CommandTypeValuesDistinct | src/constants.py:4-11 | no two command types share a code |
| Constants.RunMode.Value | src/constants.py:23-30 | run-mode values 0, 1, 2, 3, 5, each below 256 |
| Constants.RunModeValuesDistinct | src/constants.py:23-30 | no two run modes share a value |
| Constants.ParameterIndex.Value | src/constants.py:33-53 | parameter addresses, each in 0x7000..0xFFFF, so each fits 16 bits |
| Constants.ParameterIndexValuesDistinct | src/constants.py:33-53 | no two parameters share an address |
| Constants.MotorStatusOf | src/constants.py:14-20 | the enumeration lookup `MotorStatus(v)` finds the member with value v, and fails exactly for values outside {0, 1, 2, 99} |
| Constants.DecodeStatus | src/robstride.py:231-237 | a 2-bit status below 3 decodes to the member with that value; a status decodes to UNKNOWN exactly when it is not below 3 |
| Bytes.BE32RoundTrip | src/robstride.py:100 | reading back a 4-byte big-endian encoding gives the word encoded |
| Bytes.FromBE32RoundTrip | src/robstride.py:231 | re-encoding a decoded 4-byte big-endian field gives the same bytes |
| Bytes.BE64RoundTrip | connection_test.py:31 | reading back an 8-byte big-endian encoding gives the 64-bit value encoded |
| Bytes.FromBE64RoundTrip | connection_test.py:31 | re-encoding a decoded 8-byte big-endian field gives the same bytes |
| Bytes.LE16RoundTrip | src/robstride.py:161 | `struct.pack('<H')` is undone by reading the two bytes little-endian |
| Bytes.LE32RoundTrip | src/robstride.py:175 | `struct.pack('<I')` is undone by reading the four bytes little-endian |
| Bytes.Zeros | src/robstride.py:161 | `b'\x00' * n` has length n and only zero bytes |
| Frame.SecondaryField | src/robstride.py:90-95 | GET_DEVICE_ID, ENABLE and DISABLE encode the host id as secondary field, whatever the caller passed; READ_PARAM and WRITE_PARAM encode the value passed |
| Frame.FrameCanId | src/robstride.py:231 | the identifier read from bytes 2..5 is below 2^29, and together with the three low tag bits it rebuilds the whole 32-bit word |
| Frame.CanId | src/robstride.py:97 | the 29-bit identifier is below 2^29; its low byte is the motor id, bits 8..23 are the secondary field, bits 24..28 are the command code |
| Frame.AdapterId | src/robstride.py:98 | the adapter identifier shifted right by three is the CAN identifier, and its low three bits are 0b100 |
| Frame.CreateFrame | src/robstride.py:83-105 | a frame exists exactly when the payload has 8 bytes; it is 17 bytes: "AT", the identifier, 0x08, the payload, CR LF |
| Frame.CreatedFrameIdentifier | src/robstride.py:90-100 | bytes 2..5 of a frame decode to the adapter form of its identifier, whose CAN part has the control commands' secondary field forced to the host id |
| Frame.CreateFrameFields | src/robstride.py:90-100 | reading bytes 2..5 big-endian and shifting right by three recovers the motor id, the secondary field (the host id for GET_DEVICE_ID, ENABLE, DISABLE) and the command code; the low three bits are 0b100 |
| Frame.AcceptResponse | src/robstride.py:146-158 | a line is handed back exactly when it arrived, is 17 bytes long, starts with "AT" and ends with CR LF; it is then returned unchanged, otherwise the result is None |
| Frame.IsValidResponse | src/robstride.py:146-149 | a line passes the shape test exactly when it is 17 bytes long, starts with "AT" and ends with CR LF (the non-empty test is implied) |
| Frame.CreatedFrameAccepted | src/robstride.py:83-105 | every frame `_create_frame` builds passes the reply acceptance test |
| Frame.StatusBits | src/robstride.py:231-232 | the status field is below 4 and is bits 25..26 of the raw 32-bit identifier word |
| Frame.ReplyStatus | src/robstride.py:231-237 | a reply reports RUN, RESET, CALIBRATION or UNKNOWN exactly when its status bits are 2, 0, 1 or 3 |
| Frame.EnableConfirmed | src/robstride.py:227-239 | `enable` succeeds on a reply exactly when it arrived and its status bits equal RUN's value, 2 |
| Frame.StatusOfCreatedFrame | src/robstride.py:97-100 | the status bits of a frame are bits 14..15 of the secondary field it was built with |
| Parameters.ReadPayload | src/robstride.py:160-161 | a read payload is 8 bytes: the index little-endian, then six zeros |
| Parameters.WritePayload | src/robstride.py:170-177 | a write payload is 8 bytes: the index little-endian, two zeros, then the 32-bit value little-endian (the integer, or the float's encoding) |
| Parameters.ValueSlot | src/robstride.py:166-167 | the value a read returns is the four bytes at offsets 11..14 of the reply |
| Parameters.ReadValue | src/robstride.py:165-168 | `_read_parameter` returns a 4-byte value exactly when a reply was handed back, and it is bytes 11..14 of that reply |
| Parameters.WriteFrameValueSlot | src/robstride.py:160-184 | the value slot of a write frame holds exactly the 32 bits written |
| Parameters.ModeReadBackExact | src/robstride.py:296-298 | comparing only the first read-back byte is exact: a reply echoing a run-mode write confirms that mode and no other |
| Parameters.Abs | src/robstride.py:329 | the absolute value is non-negative and is the value or its negation |
| Parameters.IsCloseSymmetricReflexive | src/robstride.py:329 | the closeness test accepts equal values and does not depend on argument order |
| Parameters.IsClose | src/robstride.py:329 | CPython's computation of `isclose` with rel_tol 1e-6 and abs_tol 0 agrees with the documented definition: the difference is at most 1e-6 times the larger magnitude |
| Parameters.ModeConfirmed | src/robstride.py:295-298 | no reply never confirms a mode; a confirming first value byte names no other run mode |
| Parameters.FloatConfirmed | src/robstride.py:326-329 | no reply never confirms a float write; a reply whose value slot decodes to exactly the value always does |
| Parameters.FloatEchoConfirmed | src/robstride.py:322-329 | a verified float write succeeds on a reply that echoes the write frame whenever the float encoding rounds the value within the 1e-6 tolerance |
| ConnectionTest.CreateAtCommand | connection_test.py:14-34 | the frame is 17 bytes: "AT", an identifier whose low three bits are 0b100 and whose CAN part packs type, host and motor, 0x08, the data value big-endian, CR LF |
| ConnectionTest.AgreesWithCreateFrame | connection_test.py:14-34 | `create_at_command` builds the same frame as `_create_frame` given the command code, the secondary field `_create_frame` encodes, and the data value big-endian as payload |
| ConnectionTest.ProbeAgreesWithCreateFrame | connection_test.py:14-34 | with a zero data value, the check's frame equals the controller's GET_DEVICE_ID frame for the same motor and host |
| ConnectionTest.DefaultProbeFrame | connection_test.py:42-44 | with the defaults (type 0, motor 127, host 253, data 0) the frame is 41 54 00 07 EB FC 08, eight zeros, 0D 0A |
| Transport.Bus.constructor | src/robstride.py:67-81 | a new link is closed and has written nothing |
| Transport.Bus.Reply | src/robstride.py:146-158 | what a transaction hands back is the adapter's line when that line has the frame shape, and otherwise nothing |
| Transport.Bus.Open | src/robstride.py:188-197 | opening succeeds exactly when the port is available; a failed attempt leaves the previous writer in place; nothing is written |
| Transport.Bus.Close | src/robstride.py:502-506 | closing leaves the link closed with the log unchanged |
| Transport.Bus.SendAndReceive | src/robstride.py:107-158 | with no open writer nothing is written and the result is None; otherwise the frame is appended to the log and the accepted reply to it, a 17-byte line, is returned |
| Controller.LimitSettings | src/robstride.py:24-39 | a mode's limits are at most three writes (two outside PP mode), and none for the operation and current modes, which have no limit fields |
| Controller.LimitSettingsOrder | src/robstride.py:359-498 | the writes follow the source's field order: PP velocity limit first and current limit last; velocity-mode current limit first and acceleration last; CSP speed limit first and current limit last |
| Controller.LimitSettingsMatchFields | src/robstride.py:346-386 | each mode's limits are written exactly for the fields that are present (PP: velocity, acceleration, current; velocity mode: current, acceleration; CSP: speed, current) |
| Controller.FrameOf | src/robstride.py:160-184 | each request's frame is 17 bytes and carries that request's payload |
| Controller.FrameOfFields | src/robstride.py:90-105 | every frame the controller writes passes the acceptance test and names the request's command, the host id and the target motor |
| Controller.VerifiedWrites | src/robstride.py:310-340 | a run of verified writes sends two frames per setting |
| Controller.VerifiedWritesShape | src/robstride.py:322-326 | frame 2i of a run of verified writes is the write of setting i, frame 2i+1 its read-back of the same parameter |
| Controller.ProbeRequests | src/robstride.py:201-202 | the probes are one frame per motor id |
| Controller.ProbeRequestsShape | src/robstride.py:201-202 | probe i is a GET_DEVICE_ID request to the i-th id in key order |
| Controller.ZeroSetpoints | src/robstride.py:521-523 | the zeroing loop writes two frames per motor id |
| Controller.DisableRequests | src/robstride.py:527-528 | the disabling loop writes one frame per motor id |
| Controller.VerifiedWritesStep | src/robstride.py:346-386 | a `success &= ...` step for a present field appends that field's write and read-back; an absent field appends nothing |
| Controller.AllConfirmedStep | src/robstride.py:346-386 | ... and ANDs that field's read-back confirmation into the result |
| Controller.ZeroSetpointsShape | src/robstride.py:521-523 | the first shutdown loop sends zero velocity then zero current to each motor, in key order |
| Controller.DisableRequestsShape | src/robstride.py:527-528 | the second shutdown loop sends one disable per motor, in key order |
| Controller.ShutdownOrder | src/robstride.py:515-530 | in the shutdown traffic every frame up to 2·n is a parameter write, every later frame is a disable, and every write precedes every disable |
| Controller.RobStride.constructor | src/robstride.py:42-48 | a new motor record keeps its id, offset and limits, and starts disabled with no run mode |
| Controller.RobStride.SetEnabled | src/robstride.py:58-60 | sets the enable flag and leaves the mode alone |
| Controller.RobStride.SetMode | src/robstride.py:62-64 | sets the run mode and leaves the enable flag alone |
| Controller.IdSetMembers | src/robstride.py:77 | an id is among the dictionary's keys exactly when some listed motor has it |
| Controller.IndexById | src/robstride.py:77 | the dictionary's keys are the listed ids, and each entry is filed under its own id |
| Controller.IndexByIdLastWins | src/robstride.py:77 | the motor filed under an id is the last one listed with that id |
| Controller.KeyOrder | src/robstride.py:77 | iteration over the keys lists each registered id exactly once |
| Controller.KeyOrderFirstListed | src/robstride.py:77 | an id earlier in the key order was listed before every motor carrying a later id: keys iterate in first-insertion order |
| Controller.RobStrideController.constructor | src/robstride.py:67-81 | the controller files each listed motor under its id, iterates the ids in first-listed order, and satisfies its invariant |
| Controller.RobStrideController.CheckMotorEnabled | src/robstride.py:262-274 | an unregistered id fails; a registered one passes exactly when that motor is enabled |
| Controller.RobStrideController.CheckMotorMode | src/robstride.py:262-288 | the mode check passes exactly when the motor is registered, enabled and in the required mode; it implies the enabled check |
| Controller.RobStrideController.ReadParameter | src/robstride.py:160-168 | over an open link a read request is written and the reply's value slot (4 bytes) or None is returned; over a closed link nothing is written and the result is None |
| Controller.RobStrideController.WriteParameter | src/robstride.py:170-184 | over an open link a write request is written and the accepted reply is returned; over a closed link nothing is written |
| Controller.RobStrideController.Disconnect | src/robstride.py:502-506 | the link ends closed and nothing is written |
| Controller.RobStrideController.Connect | src/robstride.py:186-217 | an unavailable port fails and changes nothing; otherwise one probe per motor is written in key order, success holds exactly when every probe was answered, and the link stays open exactly on success |
| Controller.RobStrideController.ProbeAll | src/robstride.py:199-209 | the probe loop writes one GET_DEVICE_ID per motor in key order, and reports success exactly when all were answered |
| Controller.RobStrideController.Enable | src/robstride.py:219-247 | an unknown id fails with no traffic; otherwise one enable frame is written (if the link is open), success holds exactly when the reply arrived and reports RUN, the motor becomes enabled on success and is otherwise unchanged, and its mode never changes |
| Controller.RobStrideController.Disable | src/robstride.py:249-260 | an unknown id changes nothing; otherwise one disable frame is written (if the link is open), and whatever the reply the motor ends disabled with no mode |
| Controller.RobStrideController.SetRunMode | src/robstride.py:290-308 | the run-mode write and its read-back are written; success holds exactly when the first read-back byte equals the mode's value; the mode is adopted on success and unchanged otherwise; the enable flag is untouched and not consulted |
| Controller.RobStrideController.SetFloatParameter | src/robstride.py:310-340 | an unknown id fails with no traffic; otherwise the write and its read-back are written, and success holds exactly when the read-back float is within relative tolerance 1e-6 of the value |
| Controller.RobStrideController.ApplyField | src/robstride.py:356-384 | one `if field is not None: success &= ...` step keeps the running result equal to "every verified write so far was confirmed" |
| Controller.RobStrideController.ApplyPPLimits | src/robstride.py:346-386 | fails with no traffic unless the motor is registered, enabled and in PP mode; succeeds with no traffic without limits; otherwise one verified write per present PP field, succeeding exactly when all are confirmed |
| Controller.RobStrideController.ApplyVelocityLimits | src/robstride.py:407-438 | the same for velocity mode and its two fields |
| Controller.RobStrideController.ApplyCSPLimits | src/robstride.py:469-500 | the same for CSP mode and its two fields |
| Controller.RobStrideController.SetTargetPosition | src/robstride.py:388-401 | for a registered motor, one unverified write of position plus the motor's offset to LOC_REF; otherwise nothing |
| Controller.RobStrideController.SetTargetVelocity | src/robstride.py:440-450 | for a registered motor, one unverified write of the velocity to SPD_REF; otherwise nothing |
| Controller.RobStrideController.SetTargetCurrent | src/robstride.py:456-463 | for a registered motor, one unverified write of the current to IQ_REF; otherwise nothing |
| Controller.RobStrideController.Shutdown | src/robstride.py:515-530 | with an open link, zero setpoints for all motors, then disables for all, and every motor ends disabled with no mode; with a closed link nothing is written and no motor changes; the link ends closed |
| Controller.RobStrideController.ZeroAll | src/robstride.py:521-523 | the first shutdown loop writes zero velocity then zero current for each motor in key order |
| Controller.RobStrideController.DisableAll | src/robstride.py:527-528 | the second shutdown loop writes one disable per motor in key order and leaves every motor disabled with no mode |

## Left out

- Serial and asyncio I/O (opening the port, `readuntil`, `drain`, the loop that drains stale bytes, `wait_for` timeouts, `asyncio.sleep`) is replaced by the `Transport.Bus` oracle. A timeout or a failed read is a `None` reply. The port name and baud rate are not modelled.
- The `asyncio.Lock`: each transaction is one atomic call, so interleaving between concurrent callers is not modelled.
- Logging is not modelled.
- IEEE-754 single-precision packing is the `Float32Codec` parameter. The model does not round `position + offset` or the written values to single precision.
- Parameters.IsClose: written over reals. It does not model float overflow, NaN or infinity.
- Frame.CreateFrame: returns None where the source stops with a failed assertion (a payload that is not 8 bytes).
- Frame.CanId: requires code < 32, secondary field < 65536 and motor id < 256. The source behaves in two ways outside these widths, and neither is modelled. A secondary field in [2^16, 2^21) or a motor id in [2^8, 2^29) still fits in 29 bits, and is ORed into the neighbouring field. Any value that puts the identifier at or above 2^29 makes the shifted word wider than 32 bits, and `to_bytes(4, 'big')` raises OverflowError (src/robstride.py:100, connection_test.py:29). The controller's constructor requires the same widths of the host id and of every motor id.
- ConnectionTest.CreateAtCommand: requires the data value to be below 2^64. The OverflowError that `data_payload.to_bytes(8, 'big')` raises for wider values is not modelled (connection_test.py:31).
- Parameters.Float32Codec is total. The OverflowError that `struct.pack('<f', x)` raises for a finite value beyond the single-precision range is not modelled (src/robstride.py:177).
- Controller.RobStrideController.WriteParameter: the branch that returns None for a value that is neither int nor float cannot be expressed, because the value type has only those two cases.
- The `set_mode_pp`, `set_mode_velocity`, `set_mode_current` and `set_mode_csp` one-line wrappers are left out. Each is `SetRunMode` with a fixed mode.
- The `is_enabled` and `get_current_mode` getters are left out. They read the `RobStride` fields directly.
- `__aenter__` (connect, then raise IOError on failure) is left out. It is `Connect` plus an exception.
- `__enter__` and `__exit__` are left out. They only raise NotImplementedError.
- The sample scripts are not part of this model.
- The `__main__` block of connection_test.py is not part of this model. It is pyserial I/O and printing.
