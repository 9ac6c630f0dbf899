/**
 * The driver object: a PTU2 holds the client it talks through and the slave
 * id it addresses. Here the client is the device's registers, the log of
 * requests sent so far and the fixed schedule of requests that get an error
 * response. Each accessor is proved to do exactly what the matching function
 * of Facade or Motion describes, so every property proved there holds of
 * the object.
 */
module IqrPtu2 {
  import opened Modbus
  import opened Registers
  import Facade
  import Motion

  class PTU2 {
    /** The device's holding registers, as the client reaches them. */
    var registers: map<int, Word>
    /** Every request the client has sent, oldest first. */
    var sent: seq<Request>
    /** Positions of the requests that get an error response. */
    const faults: set<nat>
    /** The slave id the driver addresses. */
    var slave: int

    function State(): Bus
      reads this
    {
      Bus(registers, sent, faults)
    }

    /** Opening the client sends nothing; the driver addresses `id`. */
    constructor (id: int, device: map<int, Word>, faults: set<nat>)
      ensures State() == Bus(device, [], faults) && slave == id
    {
      registers := device;
      sent := [];
      this.faults := faults;
      slave := id;
    }

    /** `__set_cmd`: one write request; an error response raises. */
    method SetCmd(address: int, value: int) returns (r: Result<()>)
      modifies this
      ensures (State(), r) == Facade.SetCmd(old(State()), old(slave), address, value)
      ensures slave == old(slave)
    {
      if !IsWord(value) {
        return Err(StructError);
      }
      var req := WriteRegisters(address, value, slave);
      var answered := Answers(State(), req);
      sent := sent + [req];
      if answered {
        registers := registers[address := value];
        r := Ok(());
      } else {
        r := Err(IoError(req));
      }
    }

    /** `__get_cmd`: one read request; an error response raises. */
    method GetCmd(address: int) returns (r: Result<Word>)
      modifies this
      ensures (State(), r) == Facade.GetCmd(old(State()), old(slave), address)
      ensures slave == old(slave)
    {
      var req := ReadHoldingRegisters(address, slave);
      var answered := Answers(State(), req);
      sent := sent + [req];
      if answered {
        r := Ok(registers[address]);
      } else {
        r := Err(IoError(req));
      }
    }

    method Id() returns (r: Result<Word>)
      modifies this
      ensures (State(), r) == Facade.GetId(old(State()), old(slave))
      ensures slave == old(slave)
    {
      r := GetCmd(ID);
    }

    /** The `id` setter: the new id is used from now on only when the write succeeded. */
    method SetId(id: int) returns (r: Result<()>)
      modifies this
      ensures (State(), slave, r) == Facade.SetId(old(State()), old(slave), id)
    {
      r := SetCmd(ID, id);
      if r.Ok? {
        slave := id;
      }
    }

    method Sn() returns (r: Result<string>)
      modifies this
      ensures (State(), r) == Facade.GetSn(old(State()), old(slave))
      ensures slave == old(slave)
    {
      var raw := GetCmd(SERIAL);
      if raw.Err? {
        return Err(raw.fault);
      }
      var hardware := HardwareVersion();
      if hardware.Err? {
        return Err(hardware.fault);
      }
      var software := SoftwareVersion();
      if software.Err? {
        return Err(software.fault);
      }
      r := Ok(SnText(hardware.value, software.value, raw.value));
    }

    method SetSn(s: string) returns (r: Result<()>)
      modifies this
      ensures (State(), r) == Facade.SetSn(old(State()), old(slave), s)
      ensures slave == old(slave)
    {
      var raw := SerialWord(s);
      if raw.Err? {
        return Err(raw.fault);
      }
      r := SetCmd(SERIAL, raw.value);
    }

    method HardwareVersion() returns (r: Result<(nat, nat)>)
      modifies this
      ensures (State(), r) == Facade.GetVersion(old(State()), old(slave), HARDWARE_VERSION)
      ensures slave == old(slave)
    {
      var raw := GetCmd(HARDWARE_VERSION);
      r := if raw.Ok? then Ok(UnpackVersion(raw.value)) else Err(raw.fault);
    }

    method SetHardwareVersion(version: seq<int>) returns (r: Result<()>)
      modifies this
      ensures (State(), r) == Facade.SetVersion(old(State()), old(slave), HARDWARE_VERSION, version)
      ensures slave == old(slave)
    {
      var raw := VersionWord(version);
      if raw.Err? {
        return Err(raw.fault);
      }
      r := SetCmd(HARDWARE_VERSION, raw.value);
    }

    method SoftwareVersion() returns (r: Result<(nat, nat)>)
      modifies this
      ensures (State(), r) == Facade.GetVersion(old(State()), old(slave), SOFTWARE_VERSION)
      ensures slave == old(slave)
    {
      var raw := GetCmd(SOFTWARE_VERSION);
      r := if raw.Ok? then Ok(UnpackVersion(raw.value)) else Err(raw.fault);
    }

    method SetSoftwareVersion(version: seq<int>) returns (r: Result<()>)
      modifies this
      ensures (State(), r) == Facade.SetVersion(old(State()), old(slave), SOFTWARE_VERSION, version)
      ensures slave == old(slave)
    {
      var raw := VersionWord(version);
      if raw.Err? {
        return Err(raw.fault);
      }
      r := SetCmd(SOFTWARE_VERSION, raw.value);
    }

    method FirmwareVersion() returns (r: Result<(nat, nat, nat)>)
      modifies this
      ensures (State(), r) == Facade.GetFirmwareVersion(old(State()), old(slave))
      ensures slave == old(slave)
    {
      var raw := GetCmd(FIRMWARE_VERSION);
      r := if raw.Ok? then Ok(UnpackFirmware(raw.value)) else Err(raw.fault);
    }

    method Speed() returns (r: Result<Word>)
      modifies this
      ensures (State(), r) == Facade.GetSpeed(old(State()), old(slave))
      ensures slave == old(slave)
    {
      r := GetCmd(SPEED);
    }

    method SetSpeed(speed: int) returns (r: Result<()>)
      modifies this
      ensures (State(), r) == Facade.SetSpeed(old(State()), old(slave), speed)
      ensures slave == old(slave)
    {
      if !(speed >= 0 && speed <= 30) {
        return Err(AssertionError);
      }
      r := SetCmd(SPEED, speed);
    }

    /** The `yaw` and `pitch` getters, in hundredths of a degree. */
    method Angle(axis: Axis) returns (r: Result<int>)
      modifies this
      ensures (State(), r) == Facade.GetAngle(old(State()), old(slave), axis)
      ensures slave == old(slave)
    {
      var raw := GetCmd(FeedbackRegister(axis));
      r := if raw.Ok? then Ok(WordAngle(raw.value)) else Err(raw.fault);
    }

    /** The `yaw` and `pitch` setters, in hundredths of a degree. */
    method SetAngle(axis: Axis, centi: int) returns (r: Result<()>)
      modifies this
      ensures (State(), r) == Facade.SetAngle(old(State()), old(slave), axis, centi)
      ensures slave == old(slave)
    {
      if !(centi >= -6000 && centi <= 6000) {
        return Err(AssertionError);
      }
      r := SetCmd(CommandRegister(axis), AngleWord(centi));
    }

    /** The `yaw_temp` and `pitch_temp` getters, in tenths of a degree. */
    method Temperature(axis: Axis) returns (r: Result<Word>)
      modifies this
      ensures (State(), r) == Facade.GetTemperature(old(State()), old(slave), axis)
      ensures slave == old(slave)
    {
      r := GetCmd(TemperatureRegister(axis));
    }

    method LoopTime() returns (r: Result<Word>)
      modifies this
      ensures (State(), r) == Facade.GetLoopTime(old(State()), old(slave))
      ensures slave == old(slave)
    {
      r := GetCmd(LOOP_TIME);
    }

    method SetZero() returns (r: Result<()>)
      modifies this
      ensures (State(), r) == Facade.SetZero(old(State()), old(slave))
      ensures slave == old(slave)
    {
      r := SetCmd(ZERO, 1);
    }

    /** `move(yaw, pitch, speed)`, with the angles in hundredths of a degree. */
    method Move(yaw: int, pitch: int, speed: Option<int>) returns (r: Result<()>)
      modifies this
      ensures (State(), r) == Motion.Move(old(State()), old(slave), yaw, pitch, speed)
      ensures slave == old(slave)
    {
      var backup := Speed();
      if backup.Err? {
        return Err(backup.fault);
      }
      ghost var commanding := State();
      if Motion.Truthy(speed) {
        r := SetSpeed(speed.value);
        if r.Err? {
          return;
        }
      }
      ghost var aiming := State();
      assert Motion.Command(commanding, slave, yaw, pitch, speed, backup.value) ==
             Motion.Aim(aiming, slave, yaw, pitch, backup.value);
      r := SetAngle(Yaw, yaw);
      if r.Err? {
        return;
      }
      r := SetAngle(Pitch, pitch);
      if r.Err? {
        return;
      }
      ghost var settling := State();
      assert Motion.Aim(aiming, slave, yaw, pitch, backup.value) ==
             Motion.Settle(settling, slave, backup.value);
      var y := Angle(Yaw);
      if y.Err? {
        return Err(y.fault);
      }
      var p := Angle(Pitch);
      if p.Err? {
        return Err(p.fault);
      }
      var active := Speed();
      if active.Err? {
        return Err(active.fault);
      }
      if active.value == 0 {
        return Err(ZeroDivisionError);
      }
      r := SetSpeed(backup.value);
    }
  }
}
