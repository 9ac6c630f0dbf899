/**
 * What each accessor of the PTU2 driver does to the bus, as a function from
 * the bus and the driver's slave id to the new bus and the value returned or
 * the exception raised. The class in module IqrPtu2 is proved to do exactly
 * this; the lemmas here state the properties the driver promises.
 */
module Facade {
  import opened Modbus
  import opened Registers

  /** The bus is left exactly as it was and the call raises `fault`: nothing was sent. */
  predicate Rejected<T>(b: Bus, res: (Bus, Result<T>), fault: Fault) {
    res.0 == b && res.1 == Err(fault)
  }

  /**
   * The call sent one read of `address` and nothing else changed; it returns a
   * value exactly when the device answered, and otherwise raises the
   * transport error for that request.
   */
  predicate ReadsOnce<T>(b: Bus, slave: int, address: int, res: (Bus, Result<T>)) {
    var req := ReadHoldingRegisters(address, slave);
    res.0 == Bus(b.registers, b.sent + [req], b.faults) &&
    (res.1.Ok? <==> Answers(b, req)) &&
    (res.1.Err? ==> res.1.fault == IoError(req))
  }

  /**
   * The call sent one write of `value` to `address`; the register takes the
   * value exactly when the device answered, and otherwise the call raises the
   * transport error for that request and no register changes.
   */
  predicate WritesOnce(b: Bus, slave: int, address: int, value: Word, res: (Bus, Result<()>)) {
    var req := WriteRegisters(address, value, slave);
    res.0.sent == b.sent + [req] && res.0.faults == b.faults &&
    (res.1.Ok? <==> Answers(b, req)) &&
    (res.1.Err? ==> res.1.fault == IoError(req)) &&
    res.0.registers == if res.1.Ok? then b.registers[address := value] else b.registers
  }

  /** The device answers the next n requests addressed to `slave` that name a register it has. */
  predicate AnswersNext(b: Bus, slave: int, n: nat) {
    Addressed(b, slave) && forall i :: |b.sent| <= i < |b.sent| + n ==> i !in b.faults
  }

  /** After one answered request that left register 0 alone, the device still answers the rest. */
  lemma AnswersNextAfter(b: Bus, b': Bus, slave: int, n: nat)
    requires AnswersNext(b, slave, n + 1)
    requires |b'.sent| == |b.sent| + 1 && b'.faults == b.faults
    requires SLAVE_ID_REGISTER in b'.registers && b'.registers[SLAVE_ID_REGISTER] == b.registers[SLAVE_ID_REGISTER]
    ensures AnswersNext(b', slave, n)
  {
  }

  /** The call raised the transport error of an error response. */
  predicate TransportFailed<T>(r: Result<T>) {
    r.Err? && r.fault.IoError?
  }

  /**
   * `res` sent a prefix of `plan` after what `b` had sent, and every request
   * but the last of that prefix got a normal response. The call raised a
   * transport error exactly when the last one sent got an error response,
   * naming that request; otherwise it sent all of `plan`. Whether a request
   * is answered is read off `b`: the calls this describes never change
   * register 0 or the set of registers.
   */
  predicate FollowsPlan<T>(b: Bus, res: (Bus, Result<T>), plan: seq<Request>) {
    var n := |res.0.sent| - |b.sent|;
    0 <= n <= |plan| && res.0.sent == b.sent + plan[..n] &&
    (forall k :: 0 <= k < n - 1 ==> AnswersAt(b, k, plan[k])) &&
    (TransportFailed(res.1) <==> 0 < n && !AnswersAt(b, n - 1, plan[n - 1])) &&
    (TransportFailed(res.1) ==> res.1.fault.request == plan[n - 1]) &&
    (!TransportFailed(res.1) ==> n == |plan|)
  }

  /** A step that got an answer to `first` and then followed `plan` followed `[first] + plan`. */
  lemma FollowsAfter<T>(b: Bus, b1: Bus, first: Request, res: (Bus, Result<T>), plan: seq<Request>)
    requires b1.sent == b.sent + [first] && AnswersAt(b, 0, first)
    requires b1.faults == b.faults && b1.registers.Keys == b.registers.Keys
    requires b1.registers[SLAVE_ID_REGISTER] == b.registers[SLAVE_ID_REGISTER]
    requires FollowsPlan(b1, res, plan)
    ensures FollowsPlan(b, res, [first] + plan)
  {
    var n := |res.0.sent| - |b1.sent|;
    var whole := [first] + plan;
    assert whole[..n + 1] == [first] + plan[..n];
    forall k: nat, req: Request
      ensures AnswersAt(b1, k, req) <==> AnswersAt(b, k + 1, req)
    {
    }
    forall k | 0 <= k < n
      ensures AnswersAt(b, k, whole[k])
    {
      if k > 0 {
        assert whole[k] == plan[k - 1];
      }
    }
  }

  // ---------------------------------------------------------------------------
  // The two transport primitives.

  /** `__set_cmd`: one write; a value that is not a word is refused before anything is sent. */
  function SetCmd(b: Bus, slave: int, address: int, value: int): (res: (Bus, Result<()>))
    ensures !IsWord(value) ==> Rejected(b, res, StructError)
    ensures IsWord(value) ==> WritesOnce(b, slave, address, value, res)
  {
    if !IsWord(value) then (b, Err(StructError))
    else
      var req := WriteRegisters(address, value, slave);
      var (b', answered) := Transfer(b, req);
      (b', if answered then Ok(()) else Err(IoError(req)))
  }

  /** `__get_cmd`: one read, returning the register's word. */
  function GetCmd(b: Bus, slave: int, address: int): (res: (Bus, Result<Word>))
    ensures ReadsOnce(b, slave, address, res)
    ensures res.1.Ok? ==> address in b.registers && res.1.value == b.registers[address]
  {
    var req := ReadHoldingRegisters(address, slave);
    var (b', answered) := Transfer(b, req);
    (b', if answered then Ok(b.registers[address]) else Err(IoError(req)))
  }

  // ---------------------------------------------------------------------------
  // Accessors.

  /** The `id` getter: whenever the device answers, it reports the slave id the driver used. */
  function GetId(b: Bus, slave: int): (res: (Bus, Result<Word>))
    ensures ReadsOnce(b, slave, ID, res)
    ensures res.1.Ok? ==> res.1.value == slave
  {
    GetCmd(b, slave, ID)
  }

  /**
   * The `id` setter: write the new id to the old slave, then use the new id,
   * but only if the write succeeded. The driver keeps addressing the device
   * whatever the outcome.
   */
  function SetId(b: Bus, slave: int, id: int): (res: (Bus, int, Result<()>))
    ensures (res.0, res.2) == SetCmd(b, slave, ID, id)
    ensures res.1 == if res.2.Ok? then id else slave
    ensures Addressed(b, slave) ==> Addressed(res.0, res.1)
  {
    var (b', r) := SetCmd(b, slave, ID, id);
    (b', if r.Ok? then id else slave, r)
  }

  /** The hardware (address 2) or software (address 3) version getter. */
  function GetVersion(b: Bus, slave: int, address: int): (res: (Bus, Result<(nat, nat)>))
    ensures ReadsOnce(b, slave, address, res)
    ensures res.1.Ok? ==> address in b.registers && res.1.value == UnpackVersion(b.registers[address])
  {
    var (b', r) := GetCmd(b, slave, address);
    (b', if r.Ok? then Ok(UnpackVersion(r.value)) else Err(r.fault))
  }

  /** The hardware or software version setter: the checks, then one write. */
  function SetVersion(b: Bus, slave: int, address: int, version: seq<int>): (res: (Bus, Result<()>))
    ensures VersionWord(version).Err? ==> Rejected(b, res, AssertionError)
    ensures VersionWord(version).Ok? ==> WritesOnce(b, slave, address, VersionWord(version).value, res)
  {
    match VersionWord(version)
    case Err(e) => (b, Err(e))
    case Ok(raw) => SetCmd(b, slave, address, raw)
  }

  /** The reads of the `sn` getter, in order. */
  function SnRequests(slave: int): seq<Request> {
    [ReadHoldingRegisters(SERIAL, slave),
     ReadHoldingRegisters(HARDWARE_VERSION, slave),
     ReadHoldingRegisters(SOFTWARE_VERSION, slave)]
  }

  /**
   * The reads of the `sn` getter: the serial register, then the hardware and
   * software versions; the first error response aborts them.
   */
  function SnReads(b: Bus, slave: int): (res: (Bus, Result<(Word, (nat, nat), (nat, nat))>))
    ensures res.0.registers == b.registers && res.0.faults == b.faults
    ensures res.1.Ok? <==> forall k :: 0 <= k < 3 ==> AnswersAt(b, k, SnRequests(slave)[k])
    ensures res.1.Err? ==> res.1.fault.IoError?
    ensures FollowsPlan(b, res, SnRequests(slave))
    ensures res.1.Ok? ==>
              SERIAL in b.registers && HARDWARE_VERSION in b.registers && SOFTWARE_VERSION in b.registers &&
              res.1.value == (b.registers[SERIAL],
                              UnpackVersion(b.registers[HARDWARE_VERSION]),
                              UnpackVersion(b.registers[SOFTWARE_VERSION]))
  {
    var requests := SnRequests(slave);
    var (b1, raw) := GetCmd(b, slave, SERIAL);
    assert b1.sent == b.sent + requests[..1];
    if raw.Err? then
      assert !AnswersAt(b, 0, requests[0]);
      (b1, Err(raw.fault))
    else
      var (b2, hardware) := GetVersion(b1, slave, HARDWARE_VERSION);
      assert b2.sent == b.sent + requests[..2];
      if hardware.Err? then
        assert !AnswersAt(b, 1, requests[1]);
        (b2, Err(hardware.fault))
      else
        var (b3, software) := GetVersion(b2, slave, SOFTWARE_VERSION);
        assert b3.sent == b.sent + requests[..3];
        if software.Err? then
          assert !AnswersAt(b, 2, requests[2]);
          (b3, Err(software.fault))
        else (b3, Ok((raw.value, hardware.value, software.value)))
  }

  /**
   * The `sn` getter: it returns exactly when all three reads are answered,
   * and otherwise raises the transport error of the first read that is not.
   */
  function GetSn(b: Bus, slave: int): (res: (Bus, Result<string>))
    ensures res.0.registers == b.registers && res.0.faults == b.faults
    ensures res.1.Ok? <==> forall k :: 0 <= k < 3 ==> AnswersAt(b, k, SnRequests(slave)[k])
    ensures res.1.Err? ==> res.1.fault.IoError?
    ensures FollowsPlan(b, res, SnRequests(slave))
    ensures res.1.Ok? ==>
              SERIAL in b.registers && HARDWARE_VERSION in b.registers && SOFTWARE_VERSION in b.registers &&
              res.1.value == SnText(UnpackVersion(b.registers[HARDWARE_VERSION]),
                                    UnpackVersion(b.registers[SOFTWARE_VERSION]),
                                    b.registers[SERIAL])
  {
    var (b', r) := SnReads(b, slave);
    (b', if r.Ok? then Ok(SnText(r.value.1, r.value.2, r.value.0)) else Err(r.fault))
  }

  /** The `sn` setter: the checks of SerialWord, then one write. */
  function SetSn(b: Bus, slave: int, s: string): (res: (Bus, Result<()>))
    ensures SerialWord(s).Err? ==> Rejected(b, res, SerialWord(s).fault)
    ensures SerialWord(s).Ok? ==> WritesOnce(b, slave, SERIAL, SerialWord(s).value, res)
  {
    match SerialWord(s)
    case Err(e) => (b, Err(e))
    case Ok(raw) => SetCmd(b, slave, SERIAL, raw)
  }

  /** The `firmware_version` getter. */
  function GetFirmwareVersion(b: Bus, slave: int): (res: (Bus, Result<(nat, nat, nat)>))
    ensures ReadsOnce(b, slave, FIRMWARE_VERSION, res)
    ensures res.1.Ok? ==>
              FIRMWARE_VERSION in b.registers && res.1.value == UnpackFirmware(b.registers[FIRMWARE_VERSION])
  {
    var (b', r) := GetCmd(b, slave, FIRMWARE_VERSION);
    (b', if r.Ok? then Ok(UnpackFirmware(r.value)) else Err(r.fault))
  }

  /** The `speed` getter. */
  function GetSpeed(b: Bus, slave: int): (res: (Bus, Result<Word>))
    ensures ReadsOnce(b, slave, SPEED, res)
    ensures res.1.Ok? ==> SPEED in b.registers && res.1.value == b.registers[SPEED]
  {
    GetCmd(b, slave, SPEED)
  }

  /** The `speed` setter: a speed outside [0, 30] is refused before anything is sent. */
  function SetSpeed(b: Bus, slave: int, speed: int): (res: (Bus, Result<()>))
    ensures !SpeedInRange(speed) ==> Rejected(b, res, AssertionError)
    ensures SpeedInRange(speed) ==> WritesOnce(b, slave, SPEED, speed, res)
  {
    if !(speed >= 0 && speed <= 30) then (b, Err(AssertionError))
    else SetCmd(b, slave, SPEED, speed)
  }

  /** The `yaw`/`pitch` getter, in hundredths of a degree, from the feedback register. */
  function GetAngle(b: Bus, slave: int, axis: Axis): (res: (Bus, Result<int>))
    ensures ReadsOnce(b, slave, FeedbackRegister(axis), res)
    ensures res.1.Ok? ==>
              FeedbackRegister(axis) in b.registers &&
              res.1.value == WordAngle(b.registers[FeedbackRegister(axis)])
  {
    var (b', r) := GetCmd(b, slave, FeedbackRegister(axis));
    (b', if r.Ok? then Ok(WordAngle(r.value)) else Err(r.fault))
  }

  /**
   * The `yaw`/`pitch` setter, in hundredths of a degree, to the command
   * register; an angle outside [-60.00, 60.00] is refused before anything is sent.
   */
  function SetAngle(b: Bus, slave: int, axis: Axis, centi: int): (res: (Bus, Result<()>))
    ensures !AngleInRange(centi) ==> Rejected(b, res, AssertionError)
    ensures AngleInRange(centi) ==>
              WritesOnce(b, slave, CommandRegister(axis), AngleWord(centi), res)
    ensures AngleInRange(centi) && res.1.Ok? ==>
              WordAngle(res.0.registers[CommandRegister(axis)]) == centi
  {
    if !(centi >= -6000 && centi <= 6000) then (b, Err(AssertionError))
    else SetCmd(b, slave, CommandRegister(axis), AngleWord(centi))
  }

  /** The `yaw_temp`/`pitch_temp` getter, as the raw word in tenths of a degree. */
  function GetTemperature(b: Bus, slave: int, axis: Axis): (res: (Bus, Result<Word>))
    ensures ReadsOnce(b, slave, TemperatureRegister(axis), res)
    ensures res.1.Ok? ==> TemperatureRegister(axis) in b.registers && res.1.value == b.registers[TemperatureRegister(axis)]
  {
    GetCmd(b, slave, TemperatureRegister(axis))
  }

  /** The `loop_time` getter. */
  function GetLoopTime(b: Bus, slave: int): (res: (Bus, Result<Word>))
    ensures ReadsOnce(b, slave, LOOP_TIME, res)
    ensures res.1.Ok? ==> LOOP_TIME in b.registers && res.1.value == b.registers[LOOP_TIME]
  {
    GetCmd(b, slave, LOOP_TIME)
  }

  /** `set_zero`: write 1 to the zero-command register. */
  function SetZero(b: Bus, slave: int): (res: (Bus, Result<()>))
    ensures WritesOnce(b, slave, ZERO, 1, res)
  {
    SetCmd(b, slave, ZERO, 1)
  }

  /**
   * Setting speed 10 and yaw, then reading yaw, writes registers 6 and 7 and
   * reads register 12: the read returns the feedback register, not the command.
   */
  lemma CommandThenReadBack(b: Bus, slave: int, centi: int)
    requires AnswersNext(b, slave, 3) && AngleInRange(centi)
    requires SPEED in b.registers && YAW_COMMAND in b.registers && YAW_FEEDBACK in b.registers
    ensures var (b1, r1) := SetSpeed(b, slave, 10);
            var (b2, r2) := SetAngle(b1, slave, Yaw, centi);
            var (b3, r3) := GetAngle(b2, slave, Yaw);
            r1.Ok? && r2.Ok? &&
            b3.sent == b.sent + [WriteRegisters(SPEED, 10, slave),
                                 WriteRegisters(YAW_COMMAND, AngleWord(centi), slave),
                                 ReadHoldingRegisters(YAW_FEEDBACK, slave)] &&
            b3.registers == b.registers[SPEED := 10][YAW_COMMAND := AngleWord(centi)] &&
            r3 == Ok(WordAngle(b.registers[YAW_FEEDBACK]))
  {
    var (b1, r1) := SetSpeed(b, slave, 10);
    assert r1.Ok?;
    AnswersNextAfter(b, b1, slave, 2);
    var (b2, r2) := SetAngle(b1, slave, Yaw, centi);
    assert r2.Ok?;
    AnswersNextAfter(b1, b2, slave, 1);
  }
}
