/**
 * The per-motor state controller: a record per motor holding its enable flag and run mode,
 * and a controller that drives every registered motor over one shared bus, changing those
 * records according to what the bus returns.
 */
module Controller {
  import opened Wrappers
  import opened Constants
  import opened Bytes
  import opened Frame
  import opened Parameters
  import opened Transport

  /** `RobStrideLimits`: optional bounds per run mode; an absent field is not configured. */
  datatype Limits = Limits(
    ppVelMax: Option<real>,
    ppAccSet: Option<real>,
    ppLimitCur: Option<real>,
    velocityLimitCur: Option<real>,
    velocityAccRad: Option<real>,
    cspLimitSpd: Option<real>,
    cspLimitCur: Option<real>)

  /** One verified float write: a parameter and the value it must hold afterwards. */
  datatype Setting = Setting(index: ParameterIndex, value: real)

  /** The write for one optional limit field: none when the field is absent. */
  function Optional(index: ParameterIndex, field: Option<real>): seq<Setting>
  {
    if field.Some? then [Setting(index, field.value)] else []
  }

  /**
   * The writes `apply_pp_limits`, `apply_velocity_limits` and `apply_csp_limits` perform, in
   * order; the other modes have no limits.
   */
  function LimitSettings(mode: RunMode, l: Limits): (ws: seq<Setting>)
    ensures |ws| <= 3
    ensures mode != PositionPP ==> |ws| <= 2
    ensures mode == Operation || mode == Current ==> ws == []
  {
    match mode
    case PositionPP => Optional(VelMax, l.ppVelMax) + Optional(AccSet, l.ppAccSet) + Optional(LimitCur, l.ppLimitCur)
    case Velocity => Optional(LimitCur, l.velocityLimitCur) + Optional(AccRad, l.velocityAccRad)
    case PositionCSP => Optional(LimitSpd, l.cspLimitSpd) + Optional(LimitCur, l.cspLimitCur)
    case Operation => []
    case Current => []
  }

  /** Each mode's limits are written exactly for the fields that are present, one write per field. */
  lemma LimitSettingsMatchFields(l: Limits, v: real)
    ensures Setting(VelMax, v) in LimitSettings(PositionPP, l) <==> l.ppVelMax == Some(v)
    ensures Setting(AccSet, v) in LimitSettings(PositionPP, l) <==> l.ppAccSet == Some(v)
    ensures Setting(LimitCur, v) in LimitSettings(PositionPP, l) <==> l.ppLimitCur == Some(v)
    ensures Setting(LimitCur, v) in LimitSettings(Velocity, l) <==> l.velocityLimitCur == Some(v)
    ensures Setting(AccRad, v) in LimitSettings(Velocity, l) <==> l.velocityAccRad == Some(v)
    ensures Setting(LimitSpd, v) in LimitSettings(PositionCSP, l) <==> l.cspLimitSpd == Some(v)
    ensures Setting(LimitCur, v) in LimitSettings(PositionCSP, l) <==> l.cspLimitCur == Some(v)
    ensures |LimitSettings(PositionPP, l)| == |Optional(VelMax, l.ppVelMax)| + |Optional(AccSet, l.ppAccSet)| + |Optional(LimitCur, l.ppLimitCur)|
  {
  }

  /**
   * The writes keep the source's field order: the PP velocity limit first and its current limit
   * last, the velocity-mode current limit first, the CSP speed limit first.
   */
  lemma LimitSettingsOrder(l: Limits)
    ensures l.ppVelMax.Some? ==> LimitSettings(PositionPP, l)[0] == Setting(VelMax, l.ppVelMax.value)
    ensures l.ppLimitCur.Some? ==> var ws := LimitSettings(PositionPP, l); ws[|ws| - 1] == Setting(LimitCur, l.ppLimitCur.value)
    ensures l.velocityLimitCur.Some? ==> LimitSettings(Velocity, l)[0] == Setting(LimitCur, l.velocityLimitCur.value)
    ensures l.velocityAccRad.Some? ==> var ws := LimitSettings(Velocity, l); ws[|ws| - 1] == Setting(AccRad, l.velocityAccRad.value)
    ensures l.cspLimitSpd.Some? ==> LimitSettings(PositionCSP, l)[0] == Setting(LimitSpd, l.cspLimitSpd.value)
    ensures l.cspLimitCur.Some? ==> var ws := LimitSettings(PositionCSP, l); ws[|ws| - 1] == Setting(LimitCur, l.cspLimitCur.value)
  {
  }

  // ---- The frames the controller writes ----

  /** A frame the controller writes, recorded by what it asks of the motor. */
  datatype Request =
    | ProbeRequest(motorId: nat)
    | EnableRequest(motorId: nat)
    | DisableRequest(motorId: nat)
    | ReadRequest(motorId: nat, index: ParameterIndex)
    | WriteRequest(motorId: nat, index: ParameterIndex, value: ParamValue)

  function CommandOf(r: Request): CommandType
  {
    match r
    case ProbeRequest(_) => GetDeviceId
    case EnableRequest(_) => CommandType.Enable
    case DisableRequest(_) => CommandType.Disable
    case ReadRequest(_, _) => ReadParam
    case WriteRequest(_, _, _) => WriteParam
  }

  /** The data field of a request's frame: zeros for the state commands, the parameter payloads otherwise. */
  function PayloadOf(r: Request, codec: Float32Codec): seq<byte>
  {
    match r
    case ReadRequest(_, index) => ReadPayload(index)
    case WriteRequest(_, index, value) => WritePayload(index, value, codec)
    case _ => Zeros(8)
  }

  /**
   * The bytes written for a request, as `_create_frame` builds them: the state commands pass 0 as
   * secondary field (the host id is used instead), the parameter commands pass the host id.
   */
  function FrameOf(r: Request, hostId: nat, codec: Float32Codec): (f: seq<byte>)
    requires r.motorId < 0x100 && hostId < 0x10000
    ensures |f| == FrameLength && f[7..15] == PayloadOf(r, codec)
  {
    var area2 := if r.ReadRequest? || r.WriteRequest? then hostId else 0;
    CreateFrame(CommandOf(r), r.motorId, area2, PayloadOf(r, codec), hostId).value
  }

  /** Every frame the controller writes goes from the host to the motor and names the request's command. */
  lemma FrameOfFields(r: Request, hostId: nat, codec: Float32Codec)
    requires r.motorId < 0x100 && hostId < 0x10000
    ensures var f := FrameOf(r, hostId, codec);
      && IsValidResponse(f)
      && FrameCanId(f) >> 24 == CommandOf(r).Value() as bv32
      && (FrameCanId(f) >> 8) & 0xFFFF == hostId as bv32
      && FrameCanId(f) & 0xFF == r.motorId as bv32
  {
    var area2 := if r.ReadRequest? || r.WriteRequest? then hostId else 0;
    CreateFrameFields(CommandOf(r), r.motorId, area2, PayloadOf(r, codec), hostId);
    CreatedFrameAccepted(CommandOf(r), r.motorId, area2, PayloadOf(r, codec), hostId);
  }

  /** A verified write's frames: the write, then the read-back of the same parameter. */
  function VerifiedWrite(motorId: nat, s: Setting): seq<Request>
  {
    [WriteRequest(motorId, s.index, FloatValue(s.value)), ReadRequest(motorId, s.index)]
  }

  /** The frames of a sequence of verified writes, in order. */
  function VerifiedWrites(motorId: nat, ws: seq<Setting>): (rs: seq<Request>)
    ensures |rs| == 2 * |ws|
  {
    if ws == [] then [] else VerifiedWrites(motorId, ws[..|ws| - 1]) + VerifiedWrite(motorId, ws[|ws| - 1])
  }

  /** A run of verified writes is each setting's write followed by its read-back, in order. */
  lemma {:induction false} VerifiedWritesShape(motorId: nat, ws: seq<Setting>)
    ensures forall i :: 0 <= i < |ws| ==>
      VerifiedWrites(motorId, ws)[2 * i] == WriteRequest(motorId, ws[i].index, FloatValue(ws[i].value)) &&
      VerifiedWrites(motorId, ws)[2 * i + 1] == ReadRequest(motorId, ws[i].index)
  {
    if ws != [] {
      var init := ws[..|ws| - 1];
      VerifiedWritesShape(motorId, init);
      assert forall i :: 0 <= i < |init| ==> init[i] == ws[i];
    }
  }

  /** The frames of `connect`'s reachability probes, one per motor id, in order. */
  function ProbeRequests(ks: seq<nat>): (rs: seq<Request>)
    ensures |rs| == |ks|
  {
    if ks == [] then [] else ProbeRequests(ks[..|ks| - 1]) + [ProbeRequest(ks[|ks| - 1])]
  }

  /** The setpoint writes of the shutdown sequence: zero velocity, then zero current, for each motor in order. */
  function ZeroSetpoints(ks: seq<nat>): (rs: seq<Request>)
    ensures |rs| == 2 * |ks|
  {
    if ks == [] then []
    else
      var k := ks[|ks| - 1];
      ZeroSetpoints(ks[..|ks| - 1]) + [WriteRequest(k, SpdRef, FloatValue(0.0)), WriteRequest(k, IqRef, FloatValue(0.0))]
  }

  /** The disable commands of the shutdown sequence, one per motor in order. */
  function DisableRequests(ks: seq<nat>): (rs: seq<Request>)
    ensures |rs| == |ks|
  {
    if ks == [] then [] else DisableRequests(ks[..|ks| - 1]) + [DisableRequest(ks[|ks| - 1])]
  }

  lemma ProbeRequestsStep(ks: seq<nat>, i: nat)
    requires i < |ks|
    ensures ProbeRequests(ks[..i + 1]) == ProbeRequests(ks[..i]) + [ProbeRequest(ks[i])]
  {
    assert ks[..i + 1][..i] == ks[..i];
  }

  lemma ZeroSetpointsStep(ks: seq<nat>, i: nat)
    requires i < |ks|
    ensures ZeroSetpoints(ks[..i + 1])
         == ZeroSetpoints(ks[..i]) + [WriteRequest(ks[i], SpdRef, FloatValue(0.0)), WriteRequest(ks[i], IqRef, FloatValue(0.0))]
  {
    assert ks[..i + 1][..i] == ks[..i];
  }

  lemma DisableRequestsStep(ks: seq<nat>, i: nat)
    requires i < |ks|
    ensures DisableRequests(ks[..i + 1]) == DisableRequests(ks[..i]) + [DisableRequest(ks[i])]
  {
    assert ks[..i + 1][..i] == ks[..i];
  }

  /** Appending to a log in two steps or in one gives the same log. */
  lemma AppendAssociative(log: seq<Request>, a: seq<Request>, b: seq<Request>)
    ensures log + a + b == log + (a + b)
  {
  }

  /** The probes address each motor once, in order. */
  lemma {:induction false} ProbeRequestsShape(ks: seq<nat>)
    ensures forall i :: 0 <= i < |ks| ==> ProbeRequests(ks)[i] == ProbeRequest(ks[i])
  {
    if ks != [] {
      var init := ks[..|ks| - 1];
      ProbeRequestsShape(init);
      assert forall i :: 0 <= i < |init| ==> init[i] == ks[i];
    }
  }

  /** The zero setpoints address each motor in turn, velocity before current. */
  lemma {:induction false} ZeroSetpointsShape(ks: seq<nat>)
    ensures forall i :: 0 <= i < |ks| ==>
      ZeroSetpoints(ks)[2 * i] == WriteRequest(ks[i], SpdRef, FloatValue(0.0)) &&
      ZeroSetpoints(ks)[2 * i + 1] == WriteRequest(ks[i], IqRef, FloatValue(0.0))
  {
    if ks != [] {
      var init := ks[..|ks| - 1];
      ZeroSetpointsShape(init);
      assert forall i :: 0 <= i < |init| ==> init[i] == ks[i];
    }
  }

  /** The disable commands address each motor once, in order. */
  lemma {:induction false} DisableRequestsShape(ks: seq<nat>)
    ensures forall i :: 0 <= i < |ks| ==> DisableRequests(ks)[i] == DisableRequest(ks[i])
  {
    if ks != [] {
      var init := ks[..|ks| - 1];
      DisableRequestsShape(init);
      assert forall i :: 0 <= i < |init| ==> init[i] == ks[i];
    }
  }

  /**
   * In the shutdown sequence every setpoint write precedes every disable command: the frames
   * carry the WRITE_PARAM command up to some point and the DISABLE command after it.
   */
  lemma ShutdownOrder(ks: seq<nat>)
    ensures var t := ZeroSetpoints(ks) + DisableRequests(ks);
      && (forall i :: 0 <= i < 2 * |ks| ==> CommandOf(t[i]) == WriteParam)
      && (forall i :: 2 * |ks| <= i < |t| ==> CommandOf(t[i]) == CommandType.Disable)
      && (forall i, j :: 0 <= i < |t| && 0 <= j < |t| && CommandOf(t[i]) == WriteParam && CommandOf(t[j]) == CommandType.Disable ==> i < j)
  {
    var zs, ds := ZeroSetpoints(ks), DisableRequests(ks);
    ZeroSetpointsShape(ks);
    DisableRequestsShape(ks);
    forall i | 0 <= i < 2 * |ks|
      ensures CommandOf((zs + ds)[i]) == WriteParam
    {
      var k := i / 2;
      assert (zs + ds)[i] == zs[i];
      if i == 2 * k {
        assert zs[i] == WriteRequest(ks[k], SpdRef, FloatValue(0.0));
      } else {
        assert zs[i] == WriteRequest(ks[k], IqRef, FloatValue(0.0));
      }
    }
    assert forall i :: |zs| <= i < |zs| + |ds| ==> (zs + ds)[i] == ds[i - |zs|];
  }

  /** The `count` frames written from the n-th on were all answered. */
  predicate Answered(bus: Bus<Request>, n: nat, count: nat)
  {
    forall k :: n <= k < n + count ==> bus.Reply(k).Some?
  }

  lemma AnsweredStep(bus: Bus<Request>, n: nat, count: nat)
    ensures Answered(bus, n, count + 1) <==> Answered(bus, n, count) && bus.Reply(n + count).Some?
  {
  }

  /** Every setting is confirmed by the read-back that follows its write (the n-th frame written starts the first). */
  ghost predicate AllConfirmed(bus: Bus<Request>, codec: Float32Codec, n: nat, ws: seq<Setting>)
  {
    forall i :: 0 <= i < |ws| ==> FloatConfirmed(bus.Reply(n + 2 * i + 1), ws[i].value, codec)
  }

  /** Extending a run of verified writes by one optional field appends that field's frames. */
  lemma {:induction false} VerifiedWritesStep(motorId: nat, ws: seq<Setting>, index: ParameterIndex, field: Option<real>)
    ensures VerifiedWrites(motorId, ws + Optional(index, field))
         == VerifiedWrites(motorId, ws) + (if field.Some? then VerifiedWrite(motorId, Setting(index, field.value)) else [])
  {
    var ws' := ws + Optional(index, field);
    if field.Some? {
      assert ws'[..|ws|] == ws;
    } else {
      assert ws' == ws;
    }
  }

  /** ... and appends that field's confirmation to the success condition. */
  lemma {:induction false} AllConfirmedStep(bus: Bus<Request>, codec: Float32Codec, n: nat,
                                            ws: seq<Setting>, index: ParameterIndex, field: Option<real>)
    ensures AllConfirmed(bus, codec, n, ws + Optional(index, field))
        <==> AllConfirmed(bus, codec, n, ws) && (field.Some? ==> FloatConfirmed(bus.Reply(n + 2 * |ws| + 1), field.value, codec))
  {
    var ws' := ws + Optional(index, field);
    if field.Some? {
      assert ws'[|ws|] == Setting(index, field.value);
      assert forall i :: 0 <= i < |ws| ==> ws'[i] == ws[i];
    } else {
      assert ws' == ws;
    }
  }

  /** A motor's record (`RobStride`): configuration fixed at construction, enable flag and run mode updated in place. */
  class RobStride {
    const id: nat
    const offset: real  // radians, added to every position setpoint
    const limits: Option<Limits>
    var isEnabled: bool
    var currentMode: Option<RunMode>

    constructor (id: nat, offset: real, limits: Option<Limits>)
      ensures this.id == id && this.offset == offset && this.limits == limits
      ensures !isEnabled && currentMode == None
    {
      this.id := id;
      this.offset := offset;
      this.limits := limits;
      isEnabled := false;
      currentMode := None;
    }

    /** `_set_enabled`. */
    method SetEnabled(enabled: bool)
      modifies this
      ensures isEnabled == enabled && currentMode == old(currentMode)
    {
      isEnabled := enabled;
    }

    /** `_set_mode`. */
    method SetMode(mode: Option<RunMode>)
      modifies this
      ensures currentMode == mode && isEnabled == old(isEnabled)
    {
      currentMode := mode;
    }
  }

  /** The ids of a motor list. */
  function IdSet(ms: seq<RobStride>): set<nat>
  {
    if ms == [] then {} else IdSet(ms[..|ms| - 1]) + {ms[|ms| - 1].id}
  }

  lemma {:induction false} IdSetMembers(ms: seq<RobStride>)
    ensures forall k :: k in IdSet(ms) <==> exists i :: 0 <= i < |ms| && ms[i].id == k
  {
    if ms != [] {
      var init := ms[..|ms| - 1];
      IdSetMembers(init);
      assert forall i :: 0 <= i < |init| ==> init[i] == ms[i];
    }
  }

  /** `{motor.id: motor for motor in motors}`: the listed ids are the keys, each filed under its own id. */
  function IndexById(ms: seq<RobStride>): (m: map<nat, RobStride>)
    ensures m.Keys == IdSet(ms)
    ensures forall k :: k in m ==> m[k].id == k
  {
    if ms == [] then map[] else IndexById(ms[..|ms| - 1])[ms[|ms| - 1].id := ms[|ms| - 1]]
  }

  /** The motor filed under an id is the last one listed with that id. */
  lemma {:induction false} IndexByIdLastWins(ms: seq<RobStride>, i: nat)
    requires i < |ms|
    requires forall j :: i < j < |ms| ==> ms[j].id != ms[i].id
    ensures ms[i].id in IndexById(ms) && IndexById(ms)[ms[i].id] == ms[i]
  {
    var init := ms[..|ms| - 1];
    if i < |ms| - 1 {
      assert init[i] == ms[i];
      forall j | i < j < |init|
        ensures init[j].id != init[i].id
      {
        assert init[j] == ms[j];
      }
      IndexByIdLastWins(init, i);
    }
  }

  /** The iteration order of that dictionary's keys: each id once, in the order it was first listed. */
  function KeyOrder(ms: seq<RobStride>): (ks: seq<nat>)
    ensures forall i, j :: 0 <= i < j < |ks| ==> ks[i] != ks[j]
    ensures forall k :: k in ks <==> k in IdSet(ms)
  {
    if ms == [] then []
    else
      var ks, last := KeyOrder(ms[..|ms| - 1]), ms[|ms| - 1];
      if last.id in ks then ks else ks + [last.id]
  }

  /** Some motor listed with id `a` comes before every motor listed with id `b`. */
  ghost predicate ListedBefore(ms: seq<RobStride>, a: nat, b: nat)
  {
    exists p :: 0 <= p < |ms| && ms[p].id == a && forall q :: 0 <= q < |ms| && ms[q].id == b ==> p < q
  }

  /** The key order is the order in which ids are first listed. */
  lemma {:induction false} KeyOrderFirstListed(ms: seq<RobStride>, i: nat, j: nat)
    requires i < j < |KeyOrder(ms)|
    ensures ListedBefore(ms, KeyOrder(ms)[i], KeyOrder(ms)[j])
  {
    var init, last := ms[..|ms| - 1], ms[|ms| - 1];
    var ks := KeyOrder(init);
    assert forall q :: 0 <= q < |init| ==> init[q] == ms[q];
    if j < |ks| {
      KeyOrderFirstListed(init, i, j);
      var p :| 0 <= p < |init| && init[p].id == ks[i] && forall q :: 0 <= q < |init| && init[q].id == ks[j] ==> p < q;
      assert ms[p].id == KeyOrder(ms)[i];
    } else {
      IdSetMembers(init);
      assert ks[i] in IdSet(init);
      var p :| 0 <= p < |init| && init[p].id == ks[i];
      assert KeyOrder(ms)[j] == last.id && last.id !in ks;
      assert ms[p].id == KeyOrder(ms)[i];
    }
  }

  /** `RobStrideController`: the registered motors, the host id and the shared bus. */
  class RobStrideController {
    const hostId: nat
    /** `self.motors.keys()` in iteration order. */
    const ids: seq<nat>
    const motors: map<nat, RobStride>
    const bus: Bus<Request>
    /** The IEEE-754 single-precision packing `struct.pack('<f')` / `struct.unpack('<f')`. */
    const codec: Float32Codec

    /** Ids fit the frame's fields, each motor is filed under its own id, and `ids` lists every key once. */
    ghost predicate Valid()
    {
      && hostId < 0x10000
      && (forall k :: k in motors ==> k < 0x100 && motors[k].id == k)
      && (forall i, j :: 0 <= i < j < |ids| ==> ids[i] != ids[j])
      && (forall k :: k in ids <==> k in motors)
    }

    constructor (motorList: seq<RobStride>, bus: Bus<Request>, codec: Float32Codec, hostId: nat := 253)
      requires hostId < 0x10000
      requires forall i :: 0 <= i < |motorList| ==> motorList[i].id < 0x100
      ensures Valid()
      ensures this.motors == IndexById(motorList) && this.ids == KeyOrder(motorList)
      ensures this.bus == bus && this.codec == codec && this.hostId == hostId
    {
      IdSetMembers(motorList);
      this.hostId := hostId;
      this.bus := bus;
      this.codec := codec;
      motors := IndexById(motorList);
      ids := KeyOrder(motorList);
    }

    /** The record a call for `motorId` may update: that motor's, if it is registered. */
    function Slot(motorId: nat): set<RobStride>
    {
      if motorId in motors then {motors[motorId]} else {}
    }

    /** `_check_motor_enabled`. */
    predicate CheckMotorEnabled(motorId: nat)
      reads Slot(motorId)
      ensures motorId !in motors ==> !CheckMotorEnabled(motorId)
      ensures motorId in motors ==> (CheckMotorEnabled(motorId) <==> motors[motorId].isEnabled)
    {
      motorId in motors && motors[motorId].isEnabled
    }

    /** `_check_motor_mode`: the motor passes the enabled check and its current mode is the required one. */
    function CheckMotorMode(motorId: nat, requiredMode: RunMode): (ok: bool)
      reads Slot(motorId)
      ensures ok ==> CheckMotorEnabled(motorId)
      ensures ok <==> motorId in motors && motors[motorId].isEnabled && motors[motorId].currentMode == Some(requiredMode)
    {
      if !CheckMotorEnabled(motorId) then false
      else motors[motorId].currentMode == Some(requiredMode)
    }

    /** `_read_parameter`: a read command, then the value slot of the reply. */
    method ReadParameter(motorId: nat, index: ParameterIndex) returns (data: Option<seq<byte>>)
      requires Valid()
      modifies bus
      ensures bus.open == old(bus.open)
      ensures bus.sent == old(bus.sent) + (if bus.open then [ReadRequest(motorId, index)] else [])
      ensures data == (if bus.open then ReadValue(bus.Reply(|old(bus.sent)|)) else None)
      ensures data.Some? ==> |data.value| == 4
    {
      var response := bus.SendAndReceive(ReadRequest(motorId, index));
      data := if response.Some? then Some(ValueSlot(response.value)) else None;
    }

    /** `_write_parameter`: a write command; the reply is returned unchecked. */
    method WriteParameter(motorId: nat, index: ParameterIndex, value: ParamValue) returns (ack: Option<seq<byte>>)
      requires Valid()
      modifies bus
      ensures bus.open == old(bus.open)
      ensures bus.sent == old(bus.sent) + (if bus.open then [WriteRequest(motorId, index, value)] else [])
      ensures ack == (if bus.open then bus.Reply(|old(bus.sent)|) else None)
    {
      ack := bus.SendAndReceive(WriteRequest(motorId, index, value));
    }

    /** `disconnect`: close the writer if it is open. */
    method Disconnect()
      modifies bus
      ensures !bus.open && bus.sent == old(bus.sent)
    {
      if bus.open {
        bus.Close();
      }
    }

    /**
     * `connect`: open the port, then probe every motor; ready only if every probe is answered,
     * otherwise the port is closed again.
     */
    method Connect() returns (ok: bool)
      requires Valid()
      modifies bus
      ensures !bus.portAvailable ==> !ok && bus.open == old(bus.open) && bus.sent == old(bus.sent)
      ensures bus.portAvailable ==> bus.sent == old(bus.sent) + ProbeRequests(ids)
      ensures bus.portAvailable ==> (ok <==> Answered(bus, |old(bus.sent)|, |ids|))
      ensures bus.open == (if bus.portAvailable then ok else old(bus.open))
    {
      ok := bus.Open();
      if ok {
        ok := ProbeAll();
        if !ok {
          Disconnect();
        }
      }
    }

    /** The probing loop of `connect`: one device-id request per motor, in key order, over the open link. */
    method ProbeAll() returns (allConnected: bool)
      requires Valid() && bus.open
      modifies bus
      ensures bus.open
      ensures bus.sent == old(bus.sent) + ProbeRequests(ids)
      ensures allConnected <==> Answered(bus, |old(bus.sent)|, |ids|)
    {
      allConnected := true;
      for i := 0 to |ids|
        invariant bus.open
        invariant bus.sent == old(bus.sent) + ProbeRequests(ids[..i])
        invariant allConnected <==> Answered(bus, |old(bus.sent)|, i)
      {
        ProbeRequestsStep(ids, i);
        AppendAssociative(old(bus.sent), ProbeRequests(ids[..i]), [ProbeRequest(ids[i])]);
        AnsweredStep(bus, |old(bus.sent)|, i);
        var response := bus.SendAndReceive(ProbeRequest(ids[i]));
        allConnected := allConnected && response.Some?;
      }
      assert ids[..|ids|] == ids;
    }

    /**
     * `enable`: an unknown id fails with no traffic; otherwise an enable command is sent, and
     * the motor is marked enabled, with success, exactly when the reply reports RUN.
     */
    method Enable(motorId: nat) returns (ok: bool)
      requires Valid()
      modifies bus, Slot(motorId)
      ensures bus.open == old(bus.open)
      ensures motorId !in motors ==> !ok && bus.sent == old(bus.sent)
      ensures motorId in motors ==>
        && bus.sent == old(bus.sent) + (if bus.open then [EnableRequest(motorId)] else [])
        && (ok <==> bus.open && EnableConfirmed(bus.Reply(|old(bus.sent)|)))
        && motors[motorId].isEnabled == (old(motors[motorId].isEnabled) || ok)
        && motors[motorId].currentMode == old(motors[motorId].currentMode)
    {
      if motorId !in motors {
        return false;
      }
      var response := bus.SendAndReceive(EnableRequest(motorId));
      ok := response.Some? && ReplyStatus(response.value) == Run;
      if ok {
        motors[motorId].SetEnabled(true);
      }
    }

    /**
     * `disable`: an unknown id changes nothing; otherwise a disable command is sent and,
     * whatever the bus returns, the motor is marked disabled with no run mode.
     */
    method Disable(motorId: nat)
      requires Valid()
      modifies bus, Slot(motorId)
      ensures bus.open == old(bus.open)
      ensures motorId !in motors ==> bus.sent == old(bus.sent)
      ensures motorId in motors ==>
        && bus.sent == old(bus.sent) + (if bus.open then [DisableRequest(motorId)] else [])
        && !motors[motorId].isEnabled && motors[motorId].currentMode == None
    {
      if motorId !in motors {
        return;
      }
      var _ := bus.SendAndReceive(DisableRequest(motorId));
      motors[motorId].SetEnabled(false);
      motors[motorId].SetMode(None);
    }

    /**
     * `_set_run_mode`: write the run-mode parameter, read it back, and adopt the mode only when
     * the first value byte of the read-back equals the mode's value. The enable flag is neither
     * consulted nor changed.
     */
    method SetRunMode(motorId: nat, mode: RunMode) returns (ok: bool)
      requires Valid() && motorId in motors
      modifies bus, motors[motorId]
      ensures bus.open == old(bus.open)
      ensures bus.sent == old(bus.sent) + (if bus.open then
        [WriteRequest(motorId, RunModeIndex, IntValue(mode.Value() as bv32)), ReadRequest(motorId, RunModeIndex)]
        else [])
      ensures ok <==> bus.open && ModeConfirmed(bus.Reply(|old(bus.sent)| + 1), mode)
      ensures motors[motorId].currentMode == (if ok then Some(mode) else old(motors[motorId].currentMode))
      ensures motors[motorId].isEnabled == old(motors[motorId].isEnabled)
    {
      var _ := WriteParameter(motorId, RunModeIndex, IntValue(mode.Value() as bv32));
      var data := ReadParameter(motorId, RunModeIndex);
      ok := data.Some? && data.value[0] as nat == mode.Value();
      if ok {
        motors[motorId].SetMode(Some(mode));
      }
    }

    /**
     * `_set_float_parameter`: for a registered motor, write the float, read it back and succeed
     * when the read-back is within relative tolerance 1e-6 of it.
     */
    method SetFloatParameter(motorId: nat, index: ParameterIndex, value: real) returns (ok: bool)
      requires Valid()
      modifies bus
      ensures bus.open == old(bus.open)
      ensures motorId !in motors ==> !ok && bus.sent == old(bus.sent)
      ensures motorId in motors ==>
        && bus.sent == old(bus.sent) + (if bus.open then VerifiedWrite(motorId, Setting(index, value)) else [])
        && (ok <==> bus.open && FloatConfirmed(bus.Reply(|old(bus.sent)| + 1), value, codec))
    {
      if motorId !in motors {
        return false;
      }
      var _ := WriteParameter(motorId, index, FloatValue(value));
      var data := ReadParameter(motorId, index);
      ok := data.Some? && IsClose(codec.decode(FromLE32(data.value)), value);
    }

    /**
     * The outcome of an `apply_*_limits` call for `mode`: no traffic and failure unless the
     * motor is enabled in that mode; no traffic and success without a limits bundle; otherwise
     * one verified write per present field, succeeding when every write is confirmed.
     */
    ghost predicate LimitsApplied(motorId: nat, mode: RunMode, sent0: seq<Request>, ok: bool)
      reads bus, Slot(motorId)
    {
      if !CheckMotorMode(motorId, mode) then !ok && bus.sent == sent0
      else if motors[motorId].limits.None? then ok && bus.sent == sent0
      else
        var ws := LimitSettings(mode, motors[motorId].limits.value);
        && bus.sent == sent0 + (if bus.open then VerifiedWrites(motorId, ws) else [])
        && (ok <==> (bus.open || ws == []) && AllConfirmed(bus, codec, |sent0|, ws))
    }

    /** One `if limits.<field> is not None: success &= await self._set_float_parameter(...)` step. */
    method ApplyField(motorId: nat, index: ParameterIndex, field: Option<real>, success: bool,
                      ghost sent0: seq<Request>, ghost done: seq<Setting>) returns (result: bool)
      requires Valid() && motorId in motors
      requires bus.sent == sent0 + (if bus.open then VerifiedWrites(motorId, done) else [])
      requires success <==> (bus.open || done == []) && AllConfirmed(bus, codec, |sent0|, done)
      modifies bus
      ensures bus.open == old(bus.open)
      ensures bus.sent == sent0 + (if bus.open then VerifiedWrites(motorId, done + Optional(index, field)) else [])
      ensures result <==> (bus.open || done + Optional(index, field) == []) && AllConfirmed(bus, codec, |sent0|, done + Optional(index, field))
    {
      VerifiedWritesStep(motorId, done, index, field);
      AllConfirmedStep(bus, codec, |sent0|, done, index, field);
      result := success;
      if field.Some? {
        AppendAssociative(sent0, VerifiedWrites(motorId, done), VerifiedWrite(motorId, Setting(index, field.value)));
        var verified := SetFloatParameter(motorId, index, field.value);
        result := result && verified;
      }
    }

    /** `apply_pp_limits`. */
    method ApplyPPLimits(motorId: nat) returns (ok: bool)
      requires Valid()
      modifies bus
      ensures bus.open == old(bus.open)
      ensures LimitsApplied(motorId, PositionPP, old(bus.sent), ok)
    {
      if !CheckMotorMode(motorId, PositionPP) {
        return false;
      }
      var motor := motors[motorId];
      if motor.limits.None? {
        return true;
      }
      var limits := motor.limits.value;
      ghost var sent0 := bus.sent;
      ok := true;
      ok := ApplyField(motorId, VelMax, limits.ppVelMax, ok, sent0, []);
      ok := ApplyField(motorId, AccSet, limits.ppAccSet, ok, sent0, [] + Optional(VelMax, limits.ppVelMax));
      ok := ApplyField(motorId, LimitCur, limits.ppLimitCur, ok, sent0,
                       [] + Optional(VelMax, limits.ppVelMax) + Optional(AccSet, limits.ppAccSet));
      assert [] + Optional(VelMax, limits.ppVelMax) + Optional(AccSet, limits.ppAccSet) + Optional(LimitCur, limits.ppLimitCur)
          == LimitSettings(PositionPP, limits);
    }

    /** `apply_velocity_limits`. */
    method ApplyVelocityLimits(motorId: nat) returns (ok: bool)
      requires Valid()
      modifies bus
      ensures bus.open == old(bus.open)
      ensures LimitsApplied(motorId, Velocity, old(bus.sent), ok)
    {
      if !CheckMotorMode(motorId, Velocity) {
        return false;
      }
      var motor := motors[motorId];
      if motor.limits.None? {
        return true;
      }
      var limits := motor.limits.value;
      ghost var sent0 := bus.sent;
      ok := true;
      ok := ApplyField(motorId, LimitCur, limits.velocityLimitCur, ok, sent0, []);
      ok := ApplyField(motorId, AccRad, limits.velocityAccRad, ok, sent0, [] + Optional(LimitCur, limits.velocityLimitCur));
      assert [] + Optional(LimitCur, limits.velocityLimitCur) + Optional(AccRad, limits.velocityAccRad)
          == LimitSettings(Velocity, limits);
    }

    /** `apply_csp_limits`. */
    method ApplyCSPLimits(motorId: nat) returns (ok: bool)
      requires Valid()
      modifies bus
      ensures bus.open == old(bus.open)
      ensures LimitsApplied(motorId, PositionCSP, old(bus.sent), ok)
    {
      if !CheckMotorMode(motorId, PositionCSP) {
        return false;
      }
      var motor := motors[motorId];
      if motor.limits.None? {
        return true;
      }
      var limits := motor.limits.value;
      ghost var sent0 := bus.sent;
      ok := true;
      ok := ApplyField(motorId, LimitSpd, limits.cspLimitSpd, ok, sent0, []);
      ok := ApplyField(motorId, LimitCur, limits.cspLimitCur, ok, sent0, [] + Optional(LimitSpd, limits.cspLimitSpd));
      assert [] + Optional(LimitSpd, limits.cspLimitSpd) + Optional(LimitCur, limits.cspLimitCur)
          == LimitSettings(PositionCSP, limits);
    }

    /** `set_target_position`: an unverified write of the position plus the motor's offset to LOC_REF. */
    method SetTargetPosition(motorId: nat, positionRad: real)
      requires Valid()
      modifies bus
      ensures bus.open == old(bus.open)
      ensures bus.sent == old(bus.sent) + (if motorId in motors && bus.open then
        [WriteRequest(motorId, LocRef, FloatValue(positionRad + motors[motorId].offset))] else [])
    {
      if motorId in motors {
        var _ := WriteParameter(motorId, LocRef, FloatValue(positionRad + motors[motorId].offset));
      }
    }

    /** `set_target_velocity`: an unverified write of the velocity to SPD_REF. */
    method SetTargetVelocity(motorId: nat, velocity: real)
      requires Valid()
      modifies bus
      ensures bus.open == old(bus.open)
      ensures bus.sent == old(bus.sent) + (if motorId in motors && bus.open then [WriteRequest(motorId, SpdRef, FloatValue(velocity))] else [])
    {
      if motorId in motors {
        var _ := WriteParameter(motorId, SpdRef, FloatValue(velocity));
      }
    }

    /** `set_target_current`: an unverified write of the current to IQ_REF. */
    method SetTargetCurrent(motorId: nat, current: real)
      requires Valid()
      modifies bus
      ensures bus.open == old(bus.open)
      ensures bus.sent == old(bus.sent) + (if motorId in motors && bus.open then [WriteRequest(motorId, IqRef, FloatValue(current))] else [])
    {
      if motorId in motors {
        var _ := WriteParameter(motorId, IqRef, FloatValue(current));
      }
    }

    /**
     * `__aexit__`: with the link open, zero the velocity and current of every motor, then
     * disable every motor, whatever the bus returns; in any case close the link.
     */
    method Shutdown()
      requires Valid()
      modifies bus, motors.Values
      ensures !bus.open
      ensures old(bus.open) ==> bus.sent == old(bus.sent) + ZeroSetpoints(ids) + DisableRequests(ids)
      ensures old(bus.open) ==> forall k :: k in motors ==> !motors[k].isEnabled && motors[k].currentMode == None
      ensures !old(bus.open) ==> bus.sent == old(bus.sent) && unchanged(motors.Values)
    {
      if bus.open {
        ZeroAll();
        DisableAll();
      }
      Disconnect();
    }

    /** The first loop of `__aexit__`: zero velocity, then zero current, for each motor in key order. */
    method ZeroAll()
      requires Valid() && bus.open
      modifies bus
      ensures bus.open
      ensures bus.sent == old(bus.sent) + ZeroSetpoints(ids)
    {
      for i := 0 to |ids|
        invariant bus.open
        invariant bus.sent == old(bus.sent) + ZeroSetpoints(ids[..i])
      {
        ZeroSetpointsStep(ids, i);
        AppendAssociative(old(bus.sent), ZeroSetpoints(ids[..i]),
                          [WriteRequest(ids[i], SpdRef, FloatValue(0.0)), WriteRequest(ids[i], IqRef, FloatValue(0.0))]);
        SetTargetVelocity(ids[i], 0.0);
        SetTargetCurrent(ids[i], 0.0);
      }
      assert ids[..|ids|] == ids;
    }

    /** The second loop of `__aexit__`: disable each motor in key order, whatever the bus returns. */
    method DisableAll()
      requires Valid() && bus.open
      modifies bus, motors.Values
      ensures bus.open
      ensures bus.sent == old(bus.sent) + DisableRequests(ids)
      ensures forall k :: k in motors ==> !motors[k].isEnabled && motors[k].currentMode == None
    {
      for i := 0 to |ids|
        invariant bus.open
        invariant bus.sent == old(bus.sent) + DisableRequests(ids[..i])
        invariant forall k :: k in motors && k in ids[..i] ==> !motors[k].isEnabled && motors[k].currentMode == None
      {
        DisableRequestsStep(ids, i);
        AppendAssociative(old(bus.sent), DisableRequests(ids[..i]), [DisableRequest(ids[i])]);
        Disable(ids[i]);
      }
      assert ids[..|ids|] == ids;
    }
  }
}
