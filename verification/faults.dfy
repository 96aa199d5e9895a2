/** The fatal conditions of the interpreter, turned into values.

    Every place where the interpreter would abort the process becomes a
    `Fault`, and every operation that can abort returns a `Result`.
 */
module Faults {
  import opened Bits

  /** Why a step could not complete. */
  datatype Fault =
    | StackOverflow                    // a push onto a full return stack
    | StackUnderflow                   // a pop from an empty return stack
    | KeyOutOfRange(key: u8)           // a keypad index of 16 or more
    | MemoryOutOfBounds(addr: nat)     // a byte address past the end of memory
    | UnknownOpcode(opcode: u16)       // an instruction no dispatch case accepts

  /** Either the new value or the fault that stopped the computation. */
  datatype Result<+T> = Ok(value: T) | Err(fault: Fault) {

    predicate IsFailure() {
      Err?
    }

    function PropagateFailure<U>(): Result<U>
      requires Err?
    {
      Err(fault)
    }

    function Extract(): T
      requires Ok?
    {
      value
    }
  }
}
