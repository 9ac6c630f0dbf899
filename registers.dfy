/**
 * The register map of the pan-tilt unit and the fixed bit-width encodings
 * between register words and the values the driver exposes: the packed serial
 * number and its text, the packed hardware/software versions, the firmware
 * version nibbles, and yaw/pitch as signed 16-bit hundredths of a degree.
 */
module Registers {
  import opened Bits
  import opened Modbus

  // Holding-register addresses.
  const ID := SLAVE_ID_REGISTER
  const SERIAL := 1
  const HARDWARE_VERSION := 2
  const SOFTWARE_VERSION := 3
  const FIRMWARE_VERSION := 4
  const ZERO := 5
  const SPEED := 6
  const YAW_COMMAND := 7
  const PITCH_COMMAND := 8
  const YAW_FEEDBACK := 12
  const PITCH_FEEDBACK := 13
  const YAW_TEMPERATURE := 14
  const PITCH_TEMPERATURE := 15
  const LOOP_TIME := 19

  /** The two joints; each is commanded in one register and read back from another. */
  datatype Axis = Yaw | Pitch

  function CommandRegister(axis: Axis): int {
    match axis
    case Yaw => YAW_COMMAND
    case Pitch => PITCH_COMMAND
  }

  function FeedbackRegister(axis: Axis): int {
    match axis
    case Yaw => YAW_FEEDBACK
    case Pitch => PITCH_FEEDBACK
  }

  /** The `yaw_temp` and `pitch_temp` registers. */
  function TemperatureRegister(axis: Axis): int {
    match axis
    case Yaw => YAW_TEMPERATURE
    case Pitch => PITCH_TEMPERATURE
  }

  /** The register a joint is commanded through is never the one it is read back from. */
  lemma CommandIsNotFeedback(axis: Axis, other: Axis)
    ensures CommandRegister(axis) != FeedbackRegister(other)
    ensures CommandRegister(axis) == CommandRegister(other) <==> axis == other
    ensures FeedbackRegister(axis) == FeedbackRegister(other) <==> axis == other
  {
  }

  predicate IsByte(x: int) {
    0 <= x < 0x100
  }

  // ---------------------------------------------------------------------------
  // Serial number: year in bits 12-15, sequence number in bits 0-11.

  /** `(raw & 0b1111000000000000) >> 12` */
  function SerialYear(raw: Word): (year: nat)
    ensures year < 16 && year == raw / 4096
  {
    assert 0xF000 == ShiftLeft(LowMask(4), 12);
    MaskedHighBits(raw, 4, 12);
    ShiftRight(And(raw, 0xF000), 12)
  }

  /** `raw & 0b0000111111111111` */
  function SerialNum(raw: Word): (num: nat)
    ensures num < 4096 && num == raw % 4096
  {
    assert 0x0FFF == LowMask(12);
    ShiftRightAndLowMask(raw, 12);
    And(raw, 0x0FFF)
  }

  /** `year << 12 | num` */
  function PackSerial(year: nat, num: nat): (raw: Word)
    requires year < 16 && num < 4096
    ensures SerialYear(raw) == year && SerialNum(raw) == num
  {
    assert Pow2(12) == 4096;
    OrDisjoint(year, num, 12);
    var raw := Or(ShiftLeft(year, 12), num);
    assert raw == year * 4096 + num;
    raw
  }

  /** Every word is the packing of its own year and sequence number. */
  lemma SerialUnpackPack(raw: Word)
    ensures PackSerial(SerialYear(raw), SerialNum(raw)) == raw
  {
  }

  // ---------------------------------------------------------------------------
  // Decimal text, as `str` writes a non-negative int and `int` reads ASCII digits.

  predicate IsDigit(c: char) {
    '0' <= c <= '9'
  }

  predicate IsDigits(s: string) {
    forall i :: 0 <= i < |s| ==> IsDigit(s[i])
  }

  function DigitValue(c: char): (d: nat)
    requires IsDigit(c)
    ensures d < 10
  {
    c as int - '0' as int
  }

  function DigitChar(d: nat): (c: char)
    requires d < 10
    ensures IsDigit(c) && DigitValue(c) == d
  {
    ('0' as int + d) as char
  }

  /** `int(s)` for a string of ASCII digits (leading zeros allowed). */
  function DecimalValue(s: string): (v: nat)
    requires IsDigits(s)
    ensures v < Pow10(|s|)
  {
    if s == [] then 0 else 10 * DecimalValue(s[..|s| - 1]) + DigitValue(s[|s| - 1])
  }

  /** `str(n)`: the digits of n without leading zeros. */
  function Str(n: nat): (s: string)
    ensures 1 <= |s| && IsDigits(s) && DecimalValue(s) == n
    ensures s[0] == '0' ==> s == "0"
  {
    if n < 10 then [DigitChar(n)]
    else
      var s := Str(n / 10) + [DigitChar(n % 10)];
      assert s[..|s| - 1] == Str(n / 10);
      s
  }

  function Pow10(k: nat): (p: nat)
    ensures p >= 1
  {
    if k == 0 then 1 else 10 * Pow10(k - 1)
  }

  /** A number below 10^k has at most k digits. */
  lemma {:induction false} StrLengthBound(n: nat, k: nat)
    requires 1 <= k && n < Pow10(k)
    ensures |Str(n)| <= k
  {
    if n >= 10 {
      StrLengthBound(n / 10, k - 1);
    }
  }

  /** `['0'] * k`, which is empty when k is not positive. */
  function Zeros(k: int): (z: string)
    ensures |z| == if k > 0 then k else 0
    ensures forall i :: 0 <= i < |z| ==> z[i] == '0'
  {
    if k <= 0 then [] else Zeros(k - 1) + ['0']
  }

  /** Leading zeros do not change the value `int` reads. */
  lemma {:induction false} LeadingZeros(k: int, s: string)
    requires IsDigits(s)
    ensures IsDigits(Zeros(k) + s) && DecimalValue(Zeros(k) + s) == DecimalValue(s)
  {
    var t := Zeros(k) + s;
    if s == [] {
      assert t == Zeros(k);
      ZerosValue(k);
    } else {
      var s' := s[..|s| - 1];
      assert t[..|t| - 1] == Zeros(k) + s';
      LeadingZeros(k, s');
    }
  }

  lemma {:induction false} ZerosValue(k: int)
    ensures IsDigits(Zeros(k)) && DecimalValue(Zeros(k)) == 0
  {
    if k > 0 {
      assert Zeros(k)[..|Zeros(k)| - 1] == Zeros(k - 1);
      ZerosValue(k - 1);
    }
  }

  /** A digit string that reads as 0 is all zeros. */
  lemma {:induction false} ValueZeroIsZeros(t: string)
    requires IsDigits(t) && DecimalValue(t) == 0
    ensures t == Zeros(|t|)
  {
    if t != [] {
      var t' := t[..|t| - 1];
      ValueZeroIsZeros(t');
      assert t == t' + [t[|t| - 1]];
    }
  }

  /**
   * Padding `str(int(t))` with zeros back to the length of t gives t again:
   * the digits of a number are determined by its value and their count.
   */
  lemma {:induction false} PadInverse(t: string)
    requires 1 <= |t| && IsDigits(t)
    ensures Zeros(|t| - |Str(DecimalValue(t))|) + Str(DecimalValue(t)) == t
  {
    var t', c := t[..|t| - 1], t[|t| - 1];
    var v, v' := DecimalValue(t), DecimalValue(t[..|t| - 1]);
    assert t == t' + [c];
    if v' == 0 {
      ValueZeroIsZeros(t');
      assert DigitChar(DigitValue(c)) == c;
      assert Str(v) == [c];
    } else {
      PadInverse(t');
      assert v / 10 == v' && v % 10 == DigitValue(c);
      assert DigitChar(DigitValue(c)) == c;
      assert Str(v) == Str(v') + [c];
    }
  }

  /** `''.join(['0']*(4-len(str(n)))) + str(n)`: the sequence field of the serial number. */
  function ZeroPad(n: nat): (s: string)
    ensures IsDigits(s) && DecimalValue(s) == n
    ensures n < 10000 ==> |s| == 4
  {
    LeadingZeros(4 - |Str(n)|, Str(n));
    AtMostFourDigits(n);
    Zeros(4 - |Str(n)|) + Str(n)
  }

  lemma AtMostFourDigits(n: nat)
    ensures n < 10000 ==> |Str(n)| <= 4
  {
    if n < 10000 {
      assert Pow10(4) == 10000;
      StrLengthBound(n, 4);
    }
  }

  /** The year digit(s) followed by the padded sequence number, as the `sn` getter ends. */
  function SerialField(raw: Word): (field: string)
    ensures IsDigits(field) && |field| == |Str(SerialYear(raw))| + 4
    ensures DecimalValue(field[..|field| - 4]) == SerialYear(raw)
    ensures DecimalValue(field[|field| - 4..]) == SerialNum(raw)
  {
    var year, pad := Str(SerialYear(raw)), ZeroPad(SerialNum(raw));
    var field := year + pad;
    assert field[..|field| - 4] == year && field[|field| - 4..] == pad;
    field
  }

  lemma DigitsConcat(s: string, t: string)
    requires IsDigits(s) && IsDigits(t)
    ensures IsDigits(s + t)
  {
    assert forall i :: |s| <= i < |s + t| ==> (s + t)[i] == t[i - |s|];
  }

  /** The three parts of a concatenation, cut back out of it. */
  lemma Slices(p: string, v: string, f: string)
    ensures var t := p + v + f;
            t[..|p|] == p && t[|p|..] == v + f && t[|p|..|t| - |f|] == v && t[|t| - |f|..] == f
  {
    var t := p + v + f;
    assert t[|p|..] == v + f;
    assert (v + f)[..|v|] == v;
  }

  /** The serial-number text of the `sn` getter. */
  function SnText(hardware: (nat, nat), software: (nat, nat), raw: Word): (text: string)
    ensures |text| >= 8 + |SerialField(raw)| && text[..4] == "PTU2"
    ensures text[4..|text| - |SerialField(raw)|] ==
            Str(hardware.0) + Str(hardware.1) + Str(software.0) + Str(software.1)
    ensures IsDigits(text[4..])
    ensures text[|text| - |SerialField(raw)|..] == SerialField(raw)
  {
    var versions := Str(hardware.0) + Str(hardware.1) + Str(software.0) + Str(software.1);
    var field := SerialField(raw);
    var text := "PTU2" + versions + field;
    DigitsConcat(Str(hardware.0), Str(hardware.1));
    DigitsConcat(Str(hardware.0) + Str(hardware.1), Str(software.0));
    DigitsConcat(Str(hardware.0) + Str(hardware.1) + Str(software.0), Str(software.1));
    DigitsConcat(versions, field);
    Slices("PTU2", versions, field);
    text
  }

  /**
   * The word the `sn` setter writes for its argument, or the exception it raises
   * first: a length other than 5, a character `int` cannot read, a year or a
   * sequence number out of range.
   */
  function SerialWord(s: string): (r: Result<Word>)
    ensures r.Ok? <==> |s| == 5 && IsDigits(s) && DecimalValue(s[1..]) < 4096
    ensures r.Ok? ==> SerialYear(r.value) == DigitValue(s[0]) && SerialNum(r.value) == DecimalValue(s[1..])
    ensures |s| != 5 ==> r == Err(AssertionError)
    ensures |s| == 5 && !IsDigits(s) ==> r == Err(ValueError)
    ensures |s| == 5 && IsDigits(s) && DecimalValue(s[1..]) >= 4096 ==> r == Err(AssertionError)
  {
    if |s| != 5 then Err(AssertionError)
    else if !IsDigit(s[0]) then Err(ValueError)
    else if !IsDigits(s[|s| - 4..]) then
      assert !IsDigits(s) by { assert s[1..] == s[|s| - 4..]; }
      Err(ValueError)
    else
      assert IsDigits(s) by {
        forall i | 0 <= i < |s| ensures IsDigit(s[i]) {
          if i > 0 { assert s[i] == s[|s| - 4..][i - 1]; }
        }
      }
      var year, num := DigitValue(s[0]), DecimalValue(s[|s| - 4..]);
      assert s[1..] == s[|s| - 4..];
      if !(0 <= year < 16) then Err(AssertionError)
      else if !(0 <= num < 4096) then Err(AssertionError)
      else Ok(PackSerial(year, num))
  }

  /** Writing a serial-number string and reading the register back reproduces the string. */
  lemma SerialSetThenGet(s: string, raw: Word)
    requires SerialWord(s) == Ok(raw)
    ensures SerialField(raw) == s
  {
    var year, tail := DigitValue(s[0]), s[1..];
    assert Str(year) == [s[0]] by { assert DigitChar(year) == s[0]; }
    assert IsDigits(tail);
    PadInverse(tail);
    assert ZeroPad(SerialNum(raw)) == tail;
    assert s == [s[0]] + tail;
  }

  /** The text read from a register whose year is a single digit is accepted back, as the same word. */
  lemma SerialGetThenSet(raw: Word)
    requires SerialYear(raw) < 10
    ensures SerialWord(SerialField(raw)) == Ok(raw)
  {
    var s := SerialField(raw);
    var pad := ZeroPad(SerialNum(raw));
    assert s == [DigitChar(SerialYear(raw))] + pad;
    assert s[1..] == pad;
    assert IsDigits(s) by {
      forall i | 0 <= i < |s| ensures IsDigit(s[i]) {
        if i > 0 { assert s[i] == pad[i - 1]; }
      }
    }
    SerialUnpackPack(raw);
  }

  /**
   * A year of 10 to 15 reads back as two characters, so the getter's text is
   * six characters long and the setter refuses it.
   */
  lemma SerialWideYear(raw: Word)
    requires SerialYear(raw) >= 10
    ensures |SerialField(raw)| == 6
    ensures SerialWord(SerialField(raw)) == Err(AssertionError)
  {
    var year := SerialYear(raw);
    assert Str(year) == Str(1) + [DigitChar(year % 10)];
  }

  /** The `sn` getter's text ends with the five characters last written by the setter. */
  lemma SnEndsWithWrittenSerial(s: string, raw: Word, hardware: (nat, nat), software: (nat, nat))
    requires SerialWord(s) == Ok(raw)
    ensures var t := SnText(hardware, software, raw); |t| >= 5 && t[|t| - 5..] == s
  {
    SerialSetThenGet(s, raw);
  }

  // ---------------------------------------------------------------------------
  // Versions and angles, through `struct.pack('H')` on a little-endian host.

  /** `unpack('BB', pack('H', w))`: the low byte first. */
  function WordBytes(w: Word): (bytes: seq<nat>)
    ensures |bytes| == 2 && IsByte(bytes[0]) && IsByte(bytes[1])
    ensures bytes[0] + 256 * bytes[1] == w
  {
    [w % 256, w / 256]
  }

  /** The hardware/software version getter: the two bytes, reversed, so the high byte comes first. */
  function UnpackVersion(raw: Word): (version: (nat, nat))
    ensures IsByte(version.0) && IsByte(version.1)
    ensures raw == 256 * version.0 + version.1
  {
    var bytes := WordBytes(raw);
    (bytes[1], bytes[0])
  }

  /** `version[0] << 8 | version[1]` */
  function PackVersion(major: nat, minor: nat): (raw: Word)
    requires IsByte(major) && IsByte(minor)
    ensures UnpackVersion(raw) == (major, minor)
  {
    assert Pow2(8) == 256;
    OrDisjoint(major, minor, 8);
    Or(ShiftLeft(major, 8), minor)
  }

  /** Every word is the packing of the version read from it. */
  lemma VersionUnpackPack(raw: Word)
    ensures PackVersion(UnpackVersion(raw).0, UnpackVersion(raw).1) == raw
  {
  }

  /**
   * The word the hardware/software version setter writes for its argument, or
   * the assertion it fails: a length other than 2 or a component outside [0, 256).
   */
  function VersionWord(version: seq<int>): (r: Result<Word>)
    ensures r.Ok? <==> |version| == 2 && IsByte(version[0]) && IsByte(version[1])
    ensures r.Ok? ==> UnpackVersion(r.value) == (version[0], version[1])
    ensures r.Err? ==> r.fault == AssertionError
  {
    if |version| != 2 then Err(AssertionError)
    else if !(version[0] >= 0 && version[0] < 256) then Err(AssertionError)
    else if !(version[1] >= 0 && version[1] < 256) then Err(AssertionError)
    else Ok(PackVersion(version[0], version[1]))
  }

  /**
   * The firmware version getter: with `first, second_third` the two bytes,
   * the list `[first, (second_third & 0xF0) >> 4, second_third & 0x0F]` reversed.
   */
  function UnpackFirmware(raw: Word): (version: (nat, nat, nat))
    ensures version.0 < 16 && version.1 < 16 && IsByte(version.2)
    ensures raw == 256 * (16 * version.1 + version.0) + version.2
  {
    var bytes := WordBytes(raw);
    var first, secondThird := bytes[0], bytes[1];
    assert 0xF0 == ShiftLeft(LowMask(4), 4) && 0x0F == LowMask(4);
    MaskedHighBits(secondThird, 4, 4);
    ShiftRightAndLowMask(secondThird, 4);
    var fields := [first, ShiftRight(And(secondThird, 0xF0), 4), And(secondThird, 0x0F)];
    (fields[2], fields[1], fields[0])
  }

  /** Two words with the same firmware version are the same word. */
  lemma FirmwareInjective(raw: Word, other: Word)
    requires UnpackFirmware(raw) == UnpackFirmware(other)
    ensures raw == other
  {
  }

  /** The yaw/pitch setters' range check, in hundredths of a degree: [-60.0, 60.0]. */
  predicate AngleInRange(centi: int)
    ensures AngleInRange(centi) ==> -0x8000 <= centi < 0x8000
  {
    -6000 <= centi <= 6000
  }

  /** The speed setter's range check. */
  predicate SpeedInRange(speed: int)
    ensures SpeedInRange(speed) ==> IsWord(speed)
  {
    0 <= speed <= 30
  }

  /** `unpack('H', pack('h', centi))`: a signed 16-bit value as its two's-complement word. */
  function AngleWord(centi: int): (raw: Word)
    requires -0x8000 <= centi < 0x8000
    ensures raw == centi % 0x1_0000
  {
    if centi < 0 then centi + 0x1_0000 else centi
  }

  /** `unpack('h', pack('H', raw))`: a word read as a signed 16-bit value. */
  function WordAngle(raw: Word): (centi: int)
    ensures -0x8000 <= centi < 0x8000
    ensures centi % 0x1_0000 == raw
  {
    if raw >= 0x8000 then raw - 0x1_0000 else raw
  }

  /** Reading back the word written for an angle gives the angle. */
  lemma AngleRoundTrip(centi: int)
    requires -0x8000 <= centi < 0x8000
    ensures WordAngle(AngleWord(centi)) == centi
  {
  }

  /** Every word is the encoding of the angle read from it. */
  lemma WordRoundTrip(raw: Word)
    ensures AngleWord(WordAngle(raw)) == raw
  {
  }
}
