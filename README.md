# PTU2 pan-tilt driver: a Dafny model

`iqr_ptu2.py` is a driver for the PTU2 pan-tilt unit. The unit is a Modbus
slave. A `PTU2` object holds a Modbus serial client and the slave id it
addresses. It exposes the unit's holding registers as properties: id, serial
number, hardware/software/firmware version, speed, yaw and pitch, the two
temperatures and the control-loop time. It also offers `set_zero` and a
compound `move`.

This project models that driver in two layers and proves properties of both.

- **Register encodings** (`registers.dfy`, module `Registers`, over
  `bits.dfy`, module `Bits`). These are the fixed bit-width transforms between
  a 16-bit register word and the value the driver exposes:
  - the serial number is a 4-bit year and a 12-bit sequence number, shown as
    text with the sequence number zero-padded to four digits;
  - the hardware and software versions are two bytes;
  - the firmware version is a byte plus two nibbles;
  - yaw and pitch are signed 16-bit hundredths of a degree.

  Python's `&`, `|`, `<<` and `>>` on non-negative integers are defined in
  `Bits` by recursion on the binary digits. Lemmas there connect them to
  division and remainder by powers of two.
- **The driver object** (`modbus.dfy`, `facade.dfy`, `motion.dfy`, `ptu2.dfy`).
  - `Modbus` models the client and the device as a `Bus`: the register map,
    the log of every request sent, and a fixed schedule of the positions of
    the requests that get an error response.
  - `Facade` states each accessor of the class as a function from one `Bus`
    to the next, together with the value returned or the exception raised.
  - `Motion` does the same for `move`. It also proves which requests `move`
    sends and when it returns.
  - `IqrPtu2.PTU2` is the class itself. It has the register map, the request
    log and the slave id as mutable fields. Each of its methods is proved to
    produce exactly the new state and result of the matching `Facade` or
    `Motion` function, so every property proved about those functions holds
    of the object.

Modelling decisions:

- A request gets a normal response when three things hold: its position is
  not in the fault schedule, its slave id equals the value of register 0 (the
  unit's own address), and the register it names exists. Only then does a
  write take effect. Anything else is an error response, and the accessor
  raises `IoError`, carrying the request it sent.
- The read accessor's error message says `write_registers` (line 24). The
  model ignores message texts.
- A value that is not a 16-bit word is refused before anything is sent
  (`StructError`). This matches the client packing each value into a word
  before sending it.
- Angles are integers in hundredths of a degree, and the range check is
  [-6000, 6000]. Temperatures are the raw words, in tenths of a degree.
- `struct.pack('H')` is taken to be little endian, the byte order of the
  hosts the driver runs on.
- The firmware getter returns `(hi & 0x0F, (hi & 0xF0) >> 4, lo)`, where
  `lo` and `hi` are the low and high bytes of register 4. This is the code's
  order: it reverses the list `[lo, ...]`. The model follows the code's order.

## Model

| member | source | states |
|---|---|---|
| Bits.And | iqr_ptu2.py:38-39 | Python's `a & b` on non-negative integers (also line 79), digit by binary digit; the result is at most either operand |
| Bits.Or | iqr_ptu2.py:53 | Python's a OR b on non-negative integers (also line 64); the result lies between the larger operand and the sum |
| Bits.ShiftLeft | iqr_ptu2.py:52 | Python's `a << k` (also line 64) is a times 2^k |
| Bits.ShiftRight | iqr_ptu2.py:38 | Python's `a >> k` (also line 79) drops the k lowest bits and is at most a |
| Registers.CommandIsNotFeedback | iqr_ptu2.py:89-103 | the register an axis is commanded through (7/8) is never a read-back register (12/13); commands and read-backs each go to distinct registers per axis |
| Registers.SerialYear | iqr_ptu2.py:38 | the year field is below 16 and is the word's top four bits (raw / 4096) |
| Registers.SerialNum | iqr_ptu2.py:39 | the sequence field is below 4096 and is the word's low twelve bits (raw % 4096) |
| Registers.PackSerial | iqr_ptu2.py:52-53 | for a year below 16 and a sequence below 4096, year shifted 12 bits left and OR-ed with num is a word from which the getter recovers both |
| Registers.SerialUnpackPack | iqr_ptu2.py:38-39 | every word is the packing of the year and sequence the getter extracts from it |
| Registers.Str | iqr_ptu2.py:40-44 | `str(n)` is a non-empty digit string that `int` reads back as n, with no leading zero unless n is 0 |
| Registers.StrLengthBound | iqr_ptu2.py:40 | a number below 10^k has at most k digits |
| Registers.LeadingZeros | iqr_ptu2.py:40-41 | zeros put in front of a digit string do not change the value `int` reads |
| Registers.PadInverse | iqr_ptu2.py:40-41 | padding `str(int(t))` with zeros to the length of t gives t back |
| Registers.ZeroPad | iqr_ptu2.py:40-41 | the padded sequence text is digits that read as the number, and is exactly four characters for any number below 10000 |
| Registers.DecimalValue | iqr_ptu2.py:48-49 | `int()` of a string of ASCII digits; a string of k digits reads below 10^k |
| Registers.Zeros | iqr_ptu2.py:40 | `['0'] * k` is max(k, 0) characters, all of them `'0'` |
| Registers.SerialField | iqr_ptu2.py:38-44 | the end of the `sn` text is all digits: the year's digits, which read as the year, then four digits that read as the sequence number |
| Registers.SnText | iqr_ptu2.py:44 | the `sn` text is `PTU2`, then `str` of the four version numbers (hardware major, minor, software major, minor), then the serial field of the serial word; everything after `PTU2` is decimal digits |
| Registers.SerialWord | iqr_ptu2.py:46-53 | the `sn` setter accepts exactly the five-digit strings whose last four digits read below 4096, and then writes the year and sequence they spell; length other than 5 is an AssertionError, a non-digit a ValueError, a sequence of 4096 or more an AssertionError |
| Registers.SerialSetThenGet | iqr_ptu2.py:38-53 | the serial field the getter renders from an accepted word is the string that was written |
| Registers.SerialGetThenSet | iqr_ptu2.py:38-53 | for a word whose year is a single digit, the setter accepts the getter's serial field and writes the same word |
| Registers.SerialWideYear | iqr_ptu2.py:38-50 | a year of 10 to 15 renders as two characters, so the getter's serial field is six long and the setter refuses it |
| Registers.SnEndsWithWrittenSerial | iqr_ptu2.py:44-53 | the `sn` text ends with the five characters last accepted by the setter, whatever the versions |
| Registers.WordBytes | iqr_ptu2.py:58 | `unpack('BB', pack('H', w))` gives two bytes, low byte first, that recompose w |
| Registers.UnpackVersion | iqr_ptu2.py:58 | the version getter returns two bytes, high byte first, with raw == 256 * first + second |
| Registers.PackVersion | iqr_ptu2.py:64 | v0 shifted 8 bits left and OR-ed with v1 of two bytes is a word from which the getter returns (v0, v1) |
| Registers.VersionUnpackPack | iqr_ptu2.py:58-64 | every word is the packing of the version read from it |
| Registers.VersionWord | iqr_ptu2.py:60-64 | the version setter accepts exactly the length-2 sequences of bytes, writing a word that reads back as them; anything else is an AssertionError |
| Registers.UnpackFirmware | iqr_ptu2.py:77-79 | the firmware getter returns two nibbles and a byte, (hi & 0x0F, hi >> 4, lo), which together determine the word |
| Registers.FirmwareInjective | iqr_ptu2.py:78-79 | two words with the same firmware version are equal |
| Registers.AngleInRange | iqr_ptu2.py:94 | the angle setters' check, [-60.00, 60.00] degrees in hundredths (also line 102); every accepted angle fits a signed 16-bit value |
| Registers.SpeedInRange | iqr_ptu2.py:86 | the speed setter's check, [0, 30]; every accepted speed fits in a word |
| Registers.AngleWord | iqr_ptu2.py:95 | a signed 16-bit value is written as its two's-complement word, centi mod 65536 |
| Registers.WordAngle | iqr_ptu2.py:91 | a word is read as a signed 16-bit value congruent to it mod 65536 |
| Registers.AngleRoundTrip | iqr_ptu2.py:91-95 | reading back the word written for a signed 16-bit angle gives the angle |
| Registers.WordRoundTrip | iqr_ptu2.py:91-95 | every word is the encoding of the angle read from it |
| Facade.SetCmd | iqr_ptu2.py:18-20 | one write request to the driver's slave; the register takes the value exactly when the device answers, otherwise IoError with that request and no register changes |
| Facade.GetCmd | iqr_ptu2.py:22-25 | one read request; it returns the register's word exactly when the device answers, otherwise IoError with that request; nothing else changes |
| Facade.GetId | iqr_ptu2.py:27-29 | reads register 0; any value it returns is the slave id the driver addressed |
| Facade.SetId | iqr_ptu2.py:30-33 | writes register 0 through the old slave id; the driver uses the new id only if that write succeeded; the device stays reachable under the id the driver keeps |
| Facade.GetVersion | iqr_ptu2.py:56-58 | one read of register 2 (or 3, line 68); on success the unpacked version of that register |
| Facade.SetVersion | iqr_ptu2.py:59-64 | a rejected version raises AssertionError with nothing sent; an accepted one is one write of its packed word (also lines 69-74) |
| Facade.SnReads | iqr_ptu2.py:37-43 | the reads of registers 1, 2, 3 in that order; they return the serial word and both versions exactly when all three are answered, and otherwise raise IoError for the first unanswered read and send nothing after it |
| Facade.GetSn | iqr_ptu2.py:35-44 | reads registers 1, 2, 3 in that order; it returns exactly when all three are answered, and then the text `PTU2` + versions + serial field of those registers; an error response makes it raise IoError for that read and send nothing more |
| Facade.SetSn | iqr_ptu2.py:45-54 | a rejected string raises its exception with nothing sent; an accepted one is one write of its word to register 1 |
| Facade.GetFirmwareVersion | iqr_ptu2.py:76-79 | one read of register 4; on success its decoded firmware version |
| Facade.GetSpeed | iqr_ptu2.py:81-83 | one read of register 6 |
| Facade.SetSpeed | iqr_ptu2.py:84-87 | a speed outside [0, 30] raises AssertionError with nothing sent; otherwise one write to register 6 |
| Facade.GetAngle | iqr_ptu2.py:89-91 | yaw/pitch read register 12/13 (also line 99), returning its signed value |
| Facade.SetAngle | iqr_ptu2.py:92-95 | an angle outside [-6000, 6000] hundredths raises AssertionError with nothing sent; otherwise one write to register 7/8 (also lines 100-103), whose word reads back as the angle |
| Registers.CommandRegister | iqr_ptu2.py:95 | yaw is commanded through register 7, pitch through 8 (also line 103) |
| Registers.FeedbackRegister | iqr_ptu2.py:91 | yaw is read back from register 12, pitch from 13 (also line 99) |
| Registers.TemperatureRegister | iqr_ptu2.py:105-111 | yaw temperature is register 14, pitch temperature register 15 |
| Facade.GetTemperature | iqr_ptu2.py:105-111 | one read of register 14 or 15, returning the raw word |
| Facade.GetLoopTime | iqr_ptu2.py:113-115 | one read of register 19 |
| Facade.SetZero | iqr_ptu2.py:117-118 | one write of 1 to register 5 |
| Facade.CommandThenReadBack | iqr_ptu2.py:84-95 | setting speed 10 and a yaw, then reading yaw, sends writes to 6 and 7 and a read of 12, and returns the feedback register's angle, not the command |
| Motion.Truthy | iqr_ptu2.py:122 | Python's truth value of the optional speed: `None` and 0 are false |
| Motion.Move | iqr_ptu2.py:120-126 | `move` keeps the fault schedule and the register set, changes no register but 6, 7 and 8, and keeps the device reachable |
| Motion.Command | iqr_ptu2.py:122-126 | the part of `move` after the speed read, with the same frame |
| Motion.Aim | iqr_ptu2.py:123-126 | the part of `move` from the yaw write on, with the same frame |
| Motion.Settle | iqr_ptu2.py:125-126 | the read-backs and the restore change no register but 6 |
| Motion.MovePlan | iqr_ptu2.py:120-126 | the requests `move` sends when every one is answered: read 6, write 6 for a truthy speed in range, write 7, write 8, read 12, read 13, read 6, then the restoring write 6 when the speed read back is not 0 and the saved speed is in range; a failed speed or angle check cuts it off before the write it guards |
| Motion.SettleFollowsPlan | iqr_ptu2.py:125-126 | the end of `move` sends a prefix of: read 12, read 13, read 6, and the restore write when the read speed is not 0 and the backup in range |
| Motion.AimFollowsPlan | iqr_ptu2.py:123-126 | from the yaw write on, `move` sends a prefix of its plan, cut short by a failed angle check |
| Motion.CommandFollowsPlan | iqr_ptu2.py:122-126 | after the speed read, `move` sends a prefix of its plan, with the speed write only when the speed is truthy |
| Motion.MoveFollowsPlan | iqr_ptu2.py:120-126 | `move` sends a non-empty prefix of: read 6, write 6 if speed is truthy, write 7, write 8, read 12, read 13, read 6, write 6 with the backup; every request but the last sent was answered; it raises a transport error exactly when the last one sent got an error response, and otherwise sends the whole plan |
| Motion.MoveStopsAtError | iqr_ptu2.py:120-126 | when the k-th request of the plan is the first to get an error response, `move` sends the plan up to and including it and raises IoError for it |
| Motion.SettleCompletes | iqr_ptu2.py:125-126 | when every request is answered, the read speed is not 0 and the backup is in range, the end of `move` sends its whole plan and restores the backup |
| Motion.AimCompletes | iqr_ptu2.py:123-126 | with both angles in range, the read speed not 0, the backup in range and every request answered, the rest of `move` sends its whole plan and leaves the commands in 7 and 8 and the backup in 6 |
| Motion.CommandCompletes | iqr_ptu2.py:122-126 | with every request answered and every check passing, the part of `move` after the speed read sends its whole plan and leaves the commands in 7 and 8 and the backup in 6 |
| Motion.MoveCompletes | iqr_ptu2.py:120-126 | when every request is answered and every check passes, `move` returns, sends its whole plan, writes the commands to 7 and 8, and leaves register 6 as it found it |
| Motion.MoveOutcome | iqr_ptu2.py:120-126 | the result of `move` when every request is answered: AssertionError for a truthy speed outside 0..30, then for yaw or pitch outside ±60 degrees, ZeroDivisionError when no truthy speed is given and the saved speed is 0, AssertionError when the saved speed is outside 0..30, else success; success exactly when all of those checks pass, and never a transport error |
| Motion.SettleAnswered | iqr_ptu2.py:125-126 | with every request answered, the end of `move` raises ZeroDivisionError for a read-back speed of 0, AssertionError for a saved speed outside 0..30, and otherwise returns |
| Motion.AimAnswered | iqr_ptu2.py:123-126 | with every request answered, AssertionError for a rejected yaw or pitch, then the outcomes of the end of `move` |
| Motion.CommandAnswered | iqr_ptu2.py:122-126 | with every request answered, AssertionError for a truthy speed outside 0..30, then the outcomes of the angle checks and of the end of `move`, the read-back speed being the requested one when given |
| Motion.MoveAnswered | iqr_ptu2.py:120-126 | when the device answers every request of its plan, `move` sends the whole plan and its result is exactly MoveOutcome of the arguments and the speed it read first |
| Motion.MovePitchRejected | iqr_ptu2.py:121-124 | when pitch fails its check, yaw has already been written and the requested speed is left in place: AssertionError after read 6, write 6, write 7 |
| Motion.SettleSucceeds | iqr_ptu2.py:125-126 | the end of `move` returns only if the read speed is not 0 and the backup is in range, and then it sent its whole plan |
| Motion.AimSucceeds | iqr_ptu2.py:123-126 | that part of `move` returns only when both angles are in range, and then it sent its whole plan |
| Motion.CommandSucceeds | iqr_ptu2.py:122-126 | after the speed read, `move` returns only when every check passed, and then it sent its whole plan |
| Motion.MoveSucceeds | iqr_ptu2.py:120-126 | `move` returns only when both angles and the truthy speed passed their checks and the read speed is in range (and not 0 without a speed); it then sent its whole plan and register 6 is as it was |
| Motion.MoveWithoutSpeed | iqr_ptu2.py:121-126 | without a truthy speed, the only speed write `move` sends is its last request, carrying the speed read first; when `move` returns, that write was sent |
| Motion.MoveWithSpeed | iqr_ptu2.py:121-126 | with a truthy speed, a `move` that returns sent eight requests, with exactly two speed writes: the requested speed second and the saved speed last |
| IqrPtu2.PTU2.constructor | iqr_ptu2.py:11-13 | a new driver has sent nothing and addresses the given id |
| IqrPtu2.PTU2.SetCmd | iqr_ptu2.py:18-20 | the method's new state and result are those of Facade.SetCmd; the slave id is unchanged |
| IqrPtu2.PTU2.GetCmd | iqr_ptu2.py:22-25 | as Facade.GetCmd |
| IqrPtu2.PTU2.Id | iqr_ptu2.py:27-29 | as Facade.GetId |
| IqrPtu2.PTU2.SetId | iqr_ptu2.py:30-33 | as Facade.SetId, including the new slave id |
| IqrPtu2.PTU2.Sn | iqr_ptu2.py:35-44 | as Facade.GetSn |
| IqrPtu2.PTU2.SetSn | iqr_ptu2.py:45-54 | as Facade.SetSn |
| IqrPtu2.PTU2.HardwareVersion | iqr_ptu2.py:56-58 | as Facade.GetVersion on register 2 |
| IqrPtu2.PTU2.SetHardwareVersion | iqr_ptu2.py:59-64 | as Facade.SetVersion on register 2 |
| IqrPtu2.PTU2.SoftwareVersion | iqr_ptu2.py:66-68 | as Facade.GetVersion on register 3 |
| IqrPtu2.PTU2.SetSoftwareVersion | iqr_ptu2.py:69-74 | as Facade.SetVersion on register 3 |
| IqrPtu2.PTU2.FirmwareVersion | iqr_ptu2.py:76-79 | as Facade.GetFirmwareVersion |
| IqrPtu2.PTU2.Speed | iqr_ptu2.py:81-83 | as Facade.GetSpeed |
| IqrPtu2.PTU2.SetSpeed | iqr_ptu2.py:84-87 | as Facade.SetSpeed |
| IqrPtu2.PTU2.Angle | iqr_ptu2.py:89-99 | as Facade.GetAngle, for the `yaw` and `pitch` getters |
| IqrPtu2.PTU2.SetAngle | iqr_ptu2.py:92-103 | as Facade.SetAngle, for the `yaw` and `pitch` setters |
| IqrPtu2.PTU2.Temperature | iqr_ptu2.py:105-111 | as Facade.GetTemperature |
| IqrPtu2.PTU2.LoopTime | iqr_ptu2.py:113-115 | as Facade.GetLoopTime |
| IqrPtu2.PTU2.SetZero | iqr_ptu2.py:117-118 | as Facade.SetZero |
| IqrPtu2.PTU2.Move | iqr_ptu2.py:120-126 | as Motion.Move, step by step through the class's own accessors |

## Left out

- The Modbus client library (connection, framing, CRC, timeouts, lines 1, 12, 19 and 23). It is foreign code. It is replaced by the register map and the fault schedule, and the port, baud rate and timeout of the constructor are not modelled.
- Closing the connection in `__del__` (lines 15-16): resource handling with no effect on the registers.
- `sleep` and the delay it computes in `move` (line 125). That is floating-point arithmetic and blocking. Only the three reads it performs and the ZeroDivisionError when the read-back speed is 0 are modelled.
- The floating-point scale factors: `/ 100` in the yaw/pitch getters, `/ 10` in the temperature getters, and `int(degrees * 100)` in the setters. Angles are integer hundredths and temperatures raw words.
- Registers.SerialWord: only ASCII digits are read as numbers. Python's `int` also accepts surrounding whitespace, a sign, underscores and other Unicode digits. The check that the year is below 16 can never fail for a single digit; the definition keeps that branch, but no input reaches it, so the contract has no separate case for it.
- Registers.WordBytes: the host byte order is assumed little endian, not modelled.
- Facade.SetCmd: assumes that an error response means the write was not applied, and that a value that does not fit in a word is refused before sending.
- Facade.SetId: the device stays reachable under the id the driver keeps only because of the assumption above. If the device took the new id and its response was lost, the driver would keep the old id and could no longer reach it; the model does not capture that case.
- Python's `assert` statements are taken to run (not `python -O`). With assertions stripped, the speed, angle, version and `sn` setters (lines 47, 50-51, 61-63, 71-73, 86, 94, 102) would send values the model refuses.
- The device's own behaviour: the model does not move the feedback registers, the temperatures or the loop time. They hold whatever the initial map gives.
- The constant `joint_0`, `joint_1` and `joint_2` properties (lines 128-133), the `__main__` demonstration (lines 135-151) and `setup.py`: constants, a hardware demo and packaging.
- The default arguments of the constructor (baud rate 115200, id 1, timeout 1.0): the model's constructor takes the id explicitly.
