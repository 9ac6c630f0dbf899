/**
 * The Modbus client and the device behind it, as the driver sees them: one
 * slave whose holding registers are unsigned 16-bit words, a log of every
 * request the client has sent, and a fixed schedule of the requests that get
 * an error response instead of a normal one.
 */
module Modbus {

  /** What one holding register holds on the wire. */
  type Word = x: int | 0 <= x < 0x1_0000

  /** Whether an arbitrary integer is a Word; used where a value may not fit. */
  predicate IsWord(x: int) {
    0 <= x < 0x1_0000
  }

  /** The register in which the device keeps its own slave address. */
  const SLAVE_ID_REGISTER := 0

  /** The two requests the driver issues, always for a single register. */
  datatype Request =
    | ReadHoldingRegisters(address: int, slave: int)
    | WriteRegisters(address: int, value: Word, slave: int)

  /** The exceptions an accessor can raise. */
  datatype Fault =
    | IoError(request: Request)  // the transport reported an error response
    | AssertionError             // a range or length assertion of a setter failed
    | ValueError                 // a serial-number character is not a decimal digit
    | ZeroDivisionError          // move read back a speed of 0
    | StructError                // a value to be written does not fit in a word

  datatype Result<T> = Ok(value: T) | Err(fault: Fault)

  datatype Option<T> = None | Some(value: T)

  /**
   * The device's registers, the requests sent so far (oldest first) and the
   * positions, counted from 0, of the requests that will get an error response.
   */
  datatype Bus = Bus(registers: map<int, Word>, sent: seq<Request>, faults: set<nat>)

  /** The device currently answers to slave address `slave`. */
  predicate Addressed(b: Bus, slave: int) {
    SLAVE_ID_REGISTER in b.registers && b.registers[SLAVE_ID_REGISTER] == slave
  }

  /**
   * The device, in the state `b` shows, gives `req` a normal response when it
   * is sent k requests after those of `b`: that position is not scheduled to
   * fail, the request is addressed to the device, and the register it names exists.
   */
  predicate AnswersAt(b: Bus, k: nat, req: Request) {
    |b.sent| + k !in b.faults && Addressed(b, req.slave) && req.address in b.registers
  }

  /** The next request gets a normal response. */
  predicate Answers(b: Bus, req: Request) {
    AnswersAt(b, 0, req)
  }

  /** Sends one request and reports whether it got a normal response; a write takes effect only then. */
  function Transfer(b: Bus, req: Request): (Bus, bool) {
    var answered := Answers(b, req);
    var registers :=
      if answered && req.WriteRegisters? then b.registers[req.address := req.value] else b.registers;
    (Bus(registers, b.sent + [req], b.faults), answered)
  }
}
