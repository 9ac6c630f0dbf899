/**
 * The compound `move` operation of the PTU2 driver: save the speed, set the
 * requested speed if one is given, command yaw and pitch, read back yaw,
 * pitch and speed (the last as the divisor of the wait, which is not
 * modelled), and restore the saved speed.
 */
module Motion {
  import opened Modbus
  import opened Registers
  import opened Facade

  /** Python's truth value of the optional `speed` argument: given and not 0. */
  predicate Truthy(speed: Option<int>) {
    speed.Some? && speed.value != 0
  }

  /** `move(yaw, pitch, speed)`, with the angles in hundredths of a degree. */
  function Move(b: Bus, slave: int, yaw: int, pitch: int, speed: Option<int>): (res: (Bus, Result<()>))
    ensures res.0.faults == b.faults && res.0.registers.Keys == b.registers.Keys
    ensures forall a :: a in b.registers && a != SPEED && a != YAW_COMMAND && a != PITCH_COMMAND ==>
              res.0.registers[a] == b.registers[a]
    ensures Addressed(b, slave) ==> Addressed(res.0, slave)
  {
    var (b1, backup) := GetSpeed(b, slave);
    if backup.Err? then (b1, Err(backup.fault))
    else Command(b1, slave, yaw, pitch, speed, backup.value)
  }

  /** The middle of `move`: set the requested speed if it is truthy, then aim. */
  function Command(b: Bus, slave: int, yaw: int, pitch: int, speed: Option<int>, backup: Word): (res: (Bus, Result<()>))
    ensures res.0.faults == b.faults && res.0.registers.Keys == b.registers.Keys
    ensures forall a :: a in b.registers && a != SPEED && a != YAW_COMMAND && a != PITCH_COMMAND ==>
              res.0.registers[a] == b.registers[a]
    ensures Addressed(b, slave) ==> Addressed(res.0, slave)
  {
    var (b2, r2) := if Truthy(speed) then SetSpeed(b, slave, speed.value) else (b, Ok(()));
    if r2.Err? then (b2, r2)
    else Aim(b2, slave, yaw, pitch, backup)
  }

  /** Command yaw, then pitch, then settle. */
  function Aim(b: Bus, slave: int, yaw: int, pitch: int, backup: Word): (res: (Bus, Result<()>))
    ensures res.0.faults == b.faults && res.0.registers.Keys == b.registers.Keys
    ensures forall a :: a in b.registers && a != SPEED && a != YAW_COMMAND && a != PITCH_COMMAND ==>
              res.0.registers[a] == b.registers[a]
    ensures Addressed(b, slave) ==> Addressed(res.0, slave)
  {
    var (b3, r3) := SetAngle(b, slave, Yaw, yaw);
    if r3.Err? then (b3, r3)
    else
      var (b4, r4) := SetAngle(b3, slave, Pitch, pitch);
      if r4.Err? then (b4, r4)
      else Settle(b4, slave, backup)
  }

  /**
   * The end of `move`: read back yaw, pitch and the speed that divides the
   * wait (a speed of 0 raises), then restore the saved speed.
   */
  function Settle(b: Bus, slave: int, backup: Word): (res: (Bus, Result<()>))
    ensures res.0.faults == b.faults && res.0.registers.Keys == b.registers.Keys
    ensures forall a :: a in b.registers && a != SPEED ==> res.0.registers[a] == b.registers[a]
    ensures Addressed(b, slave) ==> Addressed(res.0, slave)
  {
    var (b5, r5) := GetAngle(b, slave, Yaw);
    if r5.Err? then (b5, Err(r5.fault))
    else
      var (b6, r6) := GetAngle(b5, slave, Pitch);
      if r6.Err? then (b6, Err(r6.fault))
      else
        var (b7, active) := GetSpeed(b6, slave);
        if active.Err? then (b7, Err(active.fault))
        else if active.value == 0 then (b7, Err(ZeroDivisionError))
        else SetSpeed(b7, slave, backup)
  }

  /** The speed register, when the device has one. */
  function CurrentSpeed(b: Bus): Word {
    if SPEED in b.registers then b.registers[SPEED] else 0
  }

  /**
   * The requests `move` sends when the device answers every one of them,
   * with `backup` as the speed it reads first, stopping where an assertion or
   * the division by the read-back speed raises.
   */
  function MovePlan(slave: int, yaw: int, pitch: int, speed: Option<int>, backup: Word): seq<Request> {
    [ReadHoldingRegisters(SPEED, slave)] + CommandPlan(slave, yaw, pitch, speed, backup, backup)
  }

  /** The requests of Command when every one is answered and the speed register holds `current`. */
  function CommandPlan(slave: int, yaw: int, pitch: int, speed: Option<int>, current: Word, backup: Word): seq<Request> {
    if Truthy(speed) && !SpeedInRange(speed.value) then []
    else if Truthy(speed) then [WriteRegisters(SPEED, speed.value, slave)] + AimPlan(slave, yaw, pitch, speed.value, backup)
    else AimPlan(slave, yaw, pitch, current, backup)
  }

  /** The requests of Aim when every one is answered and the speed register holds `current`. */
  function AimPlan(slave: int, yaw: int, pitch: int, current: Word, backup: Word): seq<Request> {
    if !AngleInRange(yaw) then []
    else if !AngleInRange(pitch) then [WriteRegisters(YAW_COMMAND, AngleWord(yaw), slave)]
    else [WriteRegisters(YAW_COMMAND, AngleWord(yaw), slave)] +
         ([WriteRegisters(PITCH_COMMAND, AngleWord(pitch), slave)] + SettlePlan(slave, current, backup))
  }

  /** The requests of Settle when every one is answered and the speed register holds `active`. */
  function SettlePlan(slave: int, active: Word, backup: Word): seq<Request> {
    [ReadHoldingRegisters(YAW_FEEDBACK, slave),
     ReadHoldingRegisters(PITCH_FEEDBACK, slave),
     ReadHoldingRegisters(SPEED, slave)] +
    (if active != 0 && SpeedInRange(backup) then [WriteRegisters(SPEED, backup, slave)] else [])
  }

  lemma SettleFollowsPlan(b: Bus, slave: int, backup: Word)
    ensures FollowsPlan(b, Settle(b, slave, backup), SettlePlan(slave, CurrentSpeed(b), backup))
  {
    var plan := SettlePlan(slave, CurrentSpeed(b), backup);
    var (b5, r5) := GetAngle(b, slave, Yaw);
    assert plan[..1] == [ReadHoldingRegisters(YAW_FEEDBACK, slave)];
    if r5.Err? {
      return;
    }
    var (b6, r6) := GetAngle(b5, slave, Pitch);
    assert plan[..2] == [ReadHoldingRegisters(YAW_FEEDBACK, slave), ReadHoldingRegisters(PITCH_FEEDBACK, slave)];
    if r6.Err? {
      return;
    }
    var (b7, active) := GetSpeed(b6, slave);
    assert plan[..3] == plan[..2] + [ReadHoldingRegisters(SPEED, slave)];
    if active.Err? {
      return;
    }
    assert active.value == CurrentSpeed(b);
  }

  lemma AimFollowsPlan(b: Bus, slave: int, yaw: int, pitch: int, backup: Word)
    ensures FollowsPlan(b, Aim(b, slave, yaw, pitch, backup), AimPlan(slave, yaw, pitch, CurrentSpeed(b), backup))
  {
    var (b3, r3) := SetAngle(b, slave, Yaw, yaw);
    if !AngleInRange(yaw) || r3.Err? {
      return;
    }
    var (b4, r4) := SetAngle(b3, slave, Pitch, pitch);
    if !AngleInRange(pitch) {
      return;
    }
    if r4.Err? {
      FollowsAfter(b, b3, WriteRegisters(YAW_COMMAND, AngleWord(yaw), slave), (b4, r4),
                   [WriteRegisters(PITCH_COMMAND, AngleWord(pitch), slave)]);
      return;
    }
    var rest := SettlePlan(slave, CurrentSpeed(b), backup);
    assert CurrentSpeed(b4) == CurrentSpeed(b);
    SettleFollowsPlan(b4, slave, backup);
    FollowsAfter(b3, b4, WriteRegisters(PITCH_COMMAND, AngleWord(pitch), slave), Settle(b4, slave, backup), rest);
    FollowsAfter(b, b3, WriteRegisters(YAW_COMMAND, AngleWord(yaw), slave), Settle(b4, slave, backup),
                 [WriteRegisters(PITCH_COMMAND, AngleWord(pitch), slave)] + rest);
  }

  lemma CommandFollowsPlan(b: Bus, slave: int, yaw: int, pitch: int, speed: Option<int>, backup: Word)
    ensures FollowsPlan(b, Command(b, slave, yaw, pitch, speed, backup),
                        CommandPlan(slave, yaw, pitch, speed, CurrentSpeed(b), backup))
  {
    if Truthy(speed) && !SpeedInRange(speed.value) {
      return;
    }
    if Truthy(speed) {
      var (b2, r2) := SetSpeed(b, slave, speed.value);
      if r2.Ok? {
        assert CurrentSpeed(b2) == speed.value;
        AimFollowsPlan(b2, slave, yaw, pitch, backup);
        FollowsAfter(b, b2, WriteRegisters(SPEED, speed.value, slave), Aim(b2, slave, yaw, pitch, backup),
                     AimPlan(slave, yaw, pitch, speed.value, backup));
      }
    } else {
      AimFollowsPlan(b, slave, yaw, pitch, backup);
    }
  }

  /**
   * Whatever the device answers, `move` sends a non-empty prefix of its plan:
   * all of it when it returns or raises anything but a transport error, and
   * up to the failing request when the transport reports an error.
   */
  lemma MoveFollowsPlan(b: Bus, slave: int, yaw: int, pitch: int, speed: Option<int>)
    ensures FollowsPlan(b, Move(b, slave, yaw, pitch, speed), MovePlan(slave, yaw, pitch, speed, CurrentSpeed(b)))
    ensures |Move(b, slave, yaw, pitch, speed).0.sent| > |b.sent|
  {
    var (b1, backup) := GetSpeed(b, slave);
    if backup.Ok? {
      assert backup.value == CurrentSpeed(b) == CurrentSpeed(b1);
      CommandFollowsPlan(b1, slave, yaw, pitch, speed, backup.value);
      FollowsAfter(b, b1, ReadHoldingRegisters(SPEED, slave),
                   Command(b1, slave, yaw, pitch, speed, backup.value),
                   CommandPlan(slave, yaw, pitch, speed, backup.value, backup.value));
    }
  }

  /**
   * An error response stops `move`: when the k-th request of its plan is the
   * first the device does not answer, `move` sends nothing after it and raises
   * the transport error for it.
   */
  lemma MoveStopsAtError(b: Bus, slave: int, yaw: int, pitch: int, speed: Option<int>, k: nat)
    requires k < |MovePlan(slave, yaw, pitch, speed, CurrentSpeed(b))|
    requires !AnswersAt(b, k, MovePlan(slave, yaw, pitch, speed, CurrentSpeed(b))[k])
    requires forall j :: 0 <= j < k ==> AnswersAt(b, j, MovePlan(slave, yaw, pitch, speed, CurrentSpeed(b))[j])
    ensures var plan := MovePlan(slave, yaw, pitch, speed, CurrentSpeed(b));
            Move(b, slave, yaw, pitch, speed).1 == Err(IoError(plan[k])) &&
            Move(b, slave, yaw, pitch, speed).0.sent == b.sent + plan[..k + 1]
  {
    MoveFollowsPlan(b, slave, yaw, pitch, speed);
  }

  /** The registers `move` uses are present and the device answers its next n requests. */
  predicate Ready(b: Bus, slave: int, n: nat) {
    AnswersNext(b, slave, n) &&
    SPEED in b.registers && YAW_COMMAND in b.registers && PITCH_COMMAND in b.registers &&
    YAW_FEEDBACK in b.registers && PITCH_FEEDBACK in b.registers
  }

  lemma ReadyAfter(b: Bus, b': Bus, slave: int, n: nat)
    requires Ready(b, slave, n + 1)
    requires |b'.sent| == |b.sent| + 1 && b'.faults == b.faults && b'.registers.Keys == b.registers.Keys
    requires b'.registers[SLAVE_ID_REGISTER] == b.registers[SLAVE_ID_REGISTER]
    ensures Ready(b', slave, n)
  {
    AnswersNextAfter(b, b', slave, n);
  }

  lemma SettleCompletes(b: Bus, slave: int, backup: Word)
    requires Ready(b, slave, 4) && CurrentSpeed(b) != 0 && SpeedInRange(backup)
    ensures Settle(b, slave, backup) ==
            (Bus(b.registers[SPEED := backup], b.sent + SettlePlan(slave, CurrentSpeed(b), backup), b.faults), Ok(()))
  {
    var (b5, r5) := GetAngle(b, slave, Yaw);
    ReadyAfter(b, b5, slave, 3);
    var (b6, r6) := GetAngle(b5, slave, Pitch);
    ReadyAfter(b5, b6, slave, 2);
    var (b7, active) := GetSpeed(b6, slave);
    ReadyAfter(b6, b7, slave, 1);
    assert active == Ok(CurrentSpeed(b));
    var (b8, r8) := SetSpeed(b7, slave, backup);
    assert r8.Ok?;
    assert b8.registers == b.registers[SPEED := backup];
    assert b8.sent == b.sent + SettlePlan(slave, CurrentSpeed(b), backup);
  }

  lemma AimCompletes(b: Bus, slave: int, yaw: int, pitch: int, backup: Word)
    requires Ready(b, slave, 6) && AngleInRange(yaw) && AngleInRange(pitch)
    requires CurrentSpeed(b) != 0 && SpeedInRange(backup)
    ensures Aim(b, slave, yaw, pitch, backup) ==
            (Bus(b.registers[YAW_COMMAND := AngleWord(yaw)][PITCH_COMMAND := AngleWord(pitch)][SPEED := backup],
                 b.sent + AimPlan(slave, yaw, pitch, CurrentSpeed(b), backup), b.faults), Ok(()))
  {
    var (b3, r3) := SetAngle(b, slave, Yaw, yaw);
    ReadyAfter(b, b3, slave, 5);
    var (b4, r4) := SetAngle(b3, slave, Pitch, pitch);
    ReadyAfter(b3, b4, slave, 4);
    assert r3.Ok? && r4.Ok?;
    assert b4.registers == b.registers[YAW_COMMAND := AngleWord(yaw)][PITCH_COMMAND := AngleWord(pitch)];
    assert CurrentSpeed(b4) == CurrentSpeed(b);
    SettleCompletes(b4, slave, backup);
    assert b4.sent + SettlePlan(slave, CurrentSpeed(b), backup) ==
           b.sent + AimPlan(slave, yaw, pitch, CurrentSpeed(b), backup);
  }

  lemma CommandCompletes(b: Bus, slave: int, yaw: int, pitch: int, speed: Option<int>, backup: Word)
    requires Ready(b, slave, |CommandPlan(slave, yaw, pitch, speed, CurrentSpeed(b), backup)|)
    requires AngleInRange(yaw) && AngleInRange(pitch)
    requires Truthy(speed) ==> SpeedInRange(speed.value)
    requires SpeedInRange(backup) && (Truthy(speed) || CurrentSpeed(b) != 0)
    ensures Command(b, slave, yaw, pitch, speed, backup) ==
            (Bus(b.registers[YAW_COMMAND := AngleWord(yaw)][PITCH_COMMAND := AngleWord(pitch)][SPEED := backup],
                 b.sent + CommandPlan(slave, yaw, pitch, speed, CurrentSpeed(b), backup), b.faults), Ok(()))
  {
    if Truthy(speed) {
      var (b2, r2) := SetSpeed(b, slave, speed.value);
      ReadyAfter(b, b2, slave, 6);
      assert CurrentSpeed(b2) == speed.value;
      AimCompletes(b2, slave, yaw, pitch, backup);
      assert b2.registers[YAW_COMMAND := AngleWord(yaw)][PITCH_COMMAND := AngleWord(pitch)][SPEED := backup] ==
             b.registers[YAW_COMMAND := AngleWord(yaw)][PITCH_COMMAND := AngleWord(pitch)][SPEED := backup];
      assert b2.sent + AimPlan(slave, yaw, pitch, speed.value, backup) ==
             b.sent + CommandPlan(slave, yaw, pitch, speed, CurrentSpeed(b), backup);
    } else {
      AimCompletes(b, slave, yaw, pitch, backup);
    }
  }

  /**
   * When the device answers every request, the angles and the requested
   * speed pass their checks and the saved speed is in range (and not 0 when
   * no speed is given), `move` sends its whole plan, leaves the new yaw and
   * pitch commands in registers 7 and 8, and the speed register as it found it.
   */
  lemma MoveCompletes(b: Bus, slave: int, yaw: int, pitch: int, speed: Option<int>)
    requires Ready(b, slave, |MovePlan(slave, yaw, pitch, speed, CurrentSpeed(b))|)
    requires AngleInRange(yaw) && AngleInRange(pitch)
    requires Truthy(speed) ==> SpeedInRange(speed.value)
    requires SpeedInRange(CurrentSpeed(b)) && (Truthy(speed) || CurrentSpeed(b) != 0)
    ensures Move(b, slave, yaw, pitch, speed) ==
            (Bus(b.registers[YAW_COMMAND := AngleWord(yaw)][PITCH_COMMAND := AngleWord(pitch)],
                 b.sent + MovePlan(slave, yaw, pitch, speed, CurrentSpeed(b)), b.faults), Ok(()))
  {
    MoveAnswered(b, slave, yaw, pitch, speed);
    MoveSucceeds(b, slave, yaw, pitch, speed);
  }

  /**
   * What `move` returns when the device answers every request, with `backup`
   * the speed it reads first: the speed check, then the two angle checks,
   * then the division by the read-back speed (the requested speed when one is
   * given, else `backup`), then the check of the speed it restores.
   */
  function MoveOutcome(yaw: int, pitch: int, speed: Option<int>, backup: Word): (r: Result<()>)
    ensures r.Ok? <==> AngleInRange(yaw) && AngleInRange(pitch) && (Truthy(speed) ==> SpeedInRange(speed.value)) &&
                       SpeedInRange(backup) && (Truthy(speed) || backup != 0)
    ensures r.Err? ==> !TransportFailed(r)
  {
    if Truthy(speed) && !SpeedInRange(speed.value) then Err(AssertionError)
    else if !AngleInRange(yaw) || !AngleInRange(pitch) then Err(AssertionError)
    else if !Truthy(speed) && backup == 0 then Err(ZeroDivisionError)
    else if !SpeedInRange(backup) then Err(AssertionError)
    else Ok(())
  }

  lemma SettleAnswered(b: Bus, slave: int, backup: Word)
    requires Ready(b, slave, |SettlePlan(slave, CurrentSpeed(b), backup)|)
    ensures Settle(b, slave, backup).1 ==
            if CurrentSpeed(b) == 0 then Err(ZeroDivisionError)
            else if !SpeedInRange(backup) then Err(AssertionError)
            else Ok(())
  {
    var m := |SettlePlan(slave, CurrentSpeed(b), backup)|;
    var (b5, r5) := GetAngle(b, slave, Yaw);
    ReadyAfter(b, b5, slave, m - 1);
    var (b6, r6) := GetAngle(b5, slave, Pitch);
    ReadyAfter(b5, b6, slave, m - 2);
    var (b7, active) := GetSpeed(b6, slave);
    ReadyAfter(b6, b7, slave, m - 3);
    assert active == Ok(CurrentSpeed(b));
  }

  lemma AimAnswered(b: Bus, slave: int, yaw: int, pitch: int, backup: Word)
    requires Ready(b, slave, |AimPlan(slave, yaw, pitch, CurrentSpeed(b), backup)|)
    ensures Aim(b, slave, yaw, pitch, backup).1 ==
            if !AngleInRange(yaw) || !AngleInRange(pitch) then Err(AssertionError)
            else if CurrentSpeed(b) == 0 then Err(ZeroDivisionError)
            else if !SpeedInRange(backup) then Err(AssertionError)
            else Ok(())
  {
    if !AngleInRange(yaw) {
      return;
    }
    var m := |AimPlan(slave, yaw, pitch, CurrentSpeed(b), backup)|;
    var (b3, r3) := SetAngle(b, slave, Yaw, yaw);
    ReadyAfter(b, b3, slave, m - 1);
    assert r3.Ok?;
    if !AngleInRange(pitch) {
      return;
    }
    var (b4, r4) := SetAngle(b3, slave, Pitch, pitch);
    ReadyAfter(b3, b4, slave, m - 2);
    assert r4.Ok? && CurrentSpeed(b4) == CurrentSpeed(b);
    SettleAnswered(b4, slave, backup);
  }

  lemma CommandAnswered(b: Bus, slave: int, yaw: int, pitch: int, speed: Option<int>, backup: Word)
    requires Ready(b, slave, |CommandPlan(slave, yaw, pitch, speed, CurrentSpeed(b), backup)|)
    ensures Command(b, slave, yaw, pitch, speed, backup).1 ==
            if Truthy(speed) && !SpeedInRange(speed.value) then Err(AssertionError)
            else if !AngleInRange(yaw) || !AngleInRange(pitch) then Err(AssertionError)
            else if !Truthy(speed) && CurrentSpeed(b) == 0 then Err(ZeroDivisionError)
            else if !SpeedInRange(backup) then Err(AssertionError)
            else Ok(())
  {
    if Truthy(speed) && !SpeedInRange(speed.value) {
      return;
    }
    if Truthy(speed) {
      var (b2, r2) := SetSpeed(b, slave, speed.value);
      ReadyAfter(b, b2, slave, |AimPlan(slave, yaw, pitch, speed.value, backup)|);
      assert r2.Ok? && CurrentSpeed(b2) == speed.value;
      AimAnswered(b2, slave, yaw, pitch, backup);
    } else {
      AimAnswered(b, slave, yaw, pitch, backup);
    }
  }

  /**
   * When the device answers every request of its plan, `move` sends the whole
   * plan and returns or raises exactly as MoveOutcome says: AssertionError for
   * a failed range check, ZeroDivisionError for a read-back speed of 0.
   */
  lemma MoveAnswered(b: Bus, slave: int, yaw: int, pitch: int, speed: Option<int>)
    requires Ready(b, slave, |MovePlan(slave, yaw, pitch, speed, CurrentSpeed(b))|)
    ensures Move(b, slave, yaw, pitch, speed).1 == MoveOutcome(yaw, pitch, speed, CurrentSpeed(b))
    ensures Move(b, slave, yaw, pitch, speed).0.sent == b.sent + MovePlan(slave, yaw, pitch, speed, CurrentSpeed(b))
  {
    var backup := CurrentSpeed(b);
    var (b1, r1) := GetSpeed(b, slave);
    ReadyAfter(b, b1, slave, |CommandPlan(slave, yaw, pitch, speed, backup, backup)|);
    assert r1 == Ok(backup) && CurrentSpeed(b1) == backup;
    CommandAnswered(b1, slave, yaw, pitch, speed, backup);
    MoveFollowsPlan(b, slave, yaw, pitch, speed);
  }

  /**
   * When pitch fails its check, yaw has been commanded already and the
   * requested speed is not restored.
   */
  lemma MovePitchRejected(b: Bus, slave: int, yaw: int, pitch: int, speed: Option<int>)
    requires Ready(b, slave, 3) && AngleInRange(yaw) && !AngleInRange(pitch)
    requires Truthy(speed) && SpeedInRange(speed.value)
    ensures Move(b, slave, yaw, pitch, speed) ==
            (Bus(b.registers[SPEED := speed.value][YAW_COMMAND := AngleWord(yaw)],
                 b.sent + [ReadHoldingRegisters(SPEED, slave),
                           WriteRegisters(SPEED, speed.value, slave),
                           WriteRegisters(YAW_COMMAND, AngleWord(yaw), slave)], b.faults),
             Err(AssertionError))
  {
    var (b1, r1) := GetSpeed(b, slave);
    ReadyAfter(b, b1, slave, 2);
    var (b2, r2) := SetSpeed(b1, slave, speed.value);
    ReadyAfter(b1, b2, slave, 1);
    var (b3, r3) := SetAngle(b2, slave, Yaw, yaw);
    assert r3.Ok?;
    assert Command(b1, slave, yaw, pitch, speed, b.registers[SPEED]) == Aim(b2, slave, yaw, pitch, b.registers[SPEED]);
    assert Aim(b2, slave, yaw, pitch, b.registers[SPEED]) == (b3, Err(AssertionError));
    assert b3.sent == b.sent + [ReadHoldingRegisters(SPEED, slave),
                                WriteRegisters(SPEED, speed.value, slave),
                                WriteRegisters(YAW_COMMAND, AngleWord(yaw), slave)];
  }

  lemma SettleSucceeds(b: Bus, slave: int, backup: Word)
    requires Settle(b, slave, backup).1.Ok?
    ensures CurrentSpeed(b) != 0 && SpeedInRange(backup)
    ensures Settle(b, slave, backup).0 ==
            Bus(b.registers[SPEED := backup], b.sent + SettlePlan(slave, CurrentSpeed(b), backup), b.faults)
  {
    SettleFollowsPlan(b, slave, backup);
    var (b5, r5) := GetAngle(b, slave, Yaw);
    var (b6, r6) := GetAngle(b5, slave, Pitch);
    var (b7, active) := GetSpeed(b6, slave);
    assert active == Ok(CurrentSpeed(b));
  }

  lemma AimSucceeds(b: Bus, slave: int, yaw: int, pitch: int, backup: Word)
    requires Aim(b, slave, yaw, pitch, backup).1.Ok?
    ensures AngleInRange(yaw) && AngleInRange(pitch) && CurrentSpeed(b) != 0 && SpeedInRange(backup)
    ensures Aim(b, slave, yaw, pitch, backup).0 ==
            Bus(b.registers[YAW_COMMAND := AngleWord(yaw)][PITCH_COMMAND := AngleWord(pitch)][SPEED := backup],
                b.sent + AimPlan(slave, yaw, pitch, CurrentSpeed(b), backup), b.faults)
  {
    var (b3, r3) := SetAngle(b, slave, Yaw, yaw);
    var (b4, r4) := SetAngle(b3, slave, Pitch, pitch);
    assert CurrentSpeed(b4) == CurrentSpeed(b);
    SettleSucceeds(b4, slave, backup);
    assert b4.sent + SettlePlan(slave, CurrentSpeed(b), backup) ==
           b.sent + AimPlan(slave, yaw, pitch, CurrentSpeed(b), backup);
  }

  lemma CommandSucceeds(b: Bus, slave: int, yaw: int, pitch: int, speed: Option<int>, backup: Word)
    requires Command(b, slave, yaw, pitch, speed, backup).1.Ok?
    ensures AngleInRange(yaw) && AngleInRange(pitch) && SpeedInRange(backup)
    ensures Truthy(speed) ==> SpeedInRange(speed.value)
    ensures !Truthy(speed) ==> CurrentSpeed(b) != 0
    ensures Command(b, slave, yaw, pitch, speed, backup).0 ==
            Bus(b.registers[YAW_COMMAND := AngleWord(yaw)][PITCH_COMMAND := AngleWord(pitch)][SPEED := backup],
                b.sent + CommandPlan(slave, yaw, pitch, speed, CurrentSpeed(b), backup), b.faults)
  {
    if Truthy(speed) {
      var (b2, r2) := SetSpeed(b, slave, speed.value);
      assert CurrentSpeed(b2) == speed.value;
      AimSucceeds(b2, slave, yaw, pitch, backup);
      assert b2.registers[YAW_COMMAND := AngleWord(yaw)][PITCH_COMMAND := AngleWord(pitch)][SPEED := backup] ==
             b.registers[YAW_COMMAND := AngleWord(yaw)][PITCH_COMMAND := AngleWord(pitch)][SPEED := backup];
    } else {
      AimSucceeds(b, slave, yaw, pitch, backup);
    }
  }

  /**
   * `move` returns only when both angles and the requested speed passed their
   * checks, it read a speed in range (and not 0 when no speed is given); it
   * then sent its whole plan and left the speed register as it found it.
   */
  lemma MoveSucceeds(b: Bus, slave: int, yaw: int, pitch: int, speed: Option<int>)
    requires Move(b, slave, yaw, pitch, speed).1.Ok?
    ensures AngleInRange(yaw) && AngleInRange(pitch) && (Truthy(speed) ==> SpeedInRange(speed.value))
    ensures SPEED in b.registers && SpeedInRange(CurrentSpeed(b)) && (Truthy(speed) || CurrentSpeed(b) != 0)
    ensures Move(b, slave, yaw, pitch, speed).0 ==
            Bus(b.registers[YAW_COMMAND := AngleWord(yaw)][PITCH_COMMAND := AngleWord(pitch)],
                b.sent + MovePlan(slave, yaw, pitch, speed, CurrentSpeed(b)), b.faults)
  {
    var (b1, r1) := GetSpeed(b, slave);
    var backup := CurrentSpeed(b);
    assert r1 == Ok(backup) && CurrentSpeed(b1) == backup;
    CommandSucceeds(b1, slave, yaw, pitch, speed, backup);
    assert b.registers[YAW_COMMAND := AngleWord(yaw)][PITCH_COMMAND := AngleWord(pitch)][SPEED := backup] ==
           b.registers[YAW_COMMAND := AngleWord(yaw)][PITCH_COMMAND := AngleWord(pitch)];
  }

  /** The request writes to the speed register. */
  predicate WritesSpeed(req: Request) {
    req.WriteRegisters? && req.address == SPEED
  }

  /**
   * Without a (truthy) speed, the only write to the speed register that `move`
   * sends is its last request, carrying the speed it read first; when it
   * returns, that write was sent.
   */
  lemma MoveWithoutSpeed(b: Bus, slave: int, yaw: int, pitch: int, speed: Option<int>)
    requires !Truthy(speed)
    ensures var res := Move(b, slave, yaw, pitch, speed);
            var tail := res.0.sent[|b.sent|..];
            (forall i :: 0 <= i < |tail| && WritesSpeed(tail[i]) ==>
               i == |tail| - 1 && tail[i].value == CurrentSpeed(b)) &&
            (res.1.Ok? ==> 0 < |tail| && tail[|tail| - 1] == WriteRegisters(SPEED, CurrentSpeed(b), slave))
  {
    var res := Move(b, slave, yaw, pitch, speed);
    var plan := MovePlan(slave, yaw, pitch, speed, CurrentSpeed(b));
    MoveFollowsPlan(b, slave, yaw, pitch, speed);
    var n := |res.0.sent| - |b.sent|;
    assert res.0.sent[|b.sent|..] == plan[..n];
    forall i | 0 <= i < n && WritesSpeed(plan[i])
      ensures i == n - 1 && plan[i].value == CurrentSpeed(b)
    {
      assert i == |plan| - 1;
    }
    if res.1.Ok? {
      MoveSucceeds(b, slave, yaw, pitch, speed);
    }
  }

  /**
   * With a truthy speed, a `move` that returns sent exactly two writes to the
   * speed register: the requested speed second, the saved speed last.
   */
  lemma MoveWithSpeed(b: Bus, slave: int, yaw: int, pitch: int, speed: Option<int>)
    requires Truthy(speed) && Move(b, slave, yaw, pitch, speed).1.Ok?
    ensures var tail := Move(b, slave, yaw, pitch, speed).0.sent[|b.sent|..];
            |tail| == 8 &&
            tail[1] == WriteRegisters(SPEED, speed.value, slave) &&
            tail[7] == WriteRegisters(SPEED, CurrentSpeed(b), slave) &&
            forall i :: 0 <= i < |tail| && WritesSpeed(tail[i]) ==> i == 1 || i == 7
  {
    MoveSucceeds(b, slave, yaw, pitch, speed);
  }
}
