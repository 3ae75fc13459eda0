/** The error value of the runtime (src/objects/resurgence_error.rs): a kind, a
    message, an optional snapshot of the machine and a traceback that grows as
    the error travels up. */
module Errors {
  import opened Types
  import Machine

  /** ResurgenceErrorKind (resurgence_error.rs:7-18): the shared error kinds
      without `InvalidInput`, which is an `std::io::ErrorKind` the record never holds. */
  type ResurgenceErrorKind = k: ErrorKind | !k.InvalidInput? witness InvalidOperation

  /** ResurgenceContext (resurgence_error.rs:57-70): the machine as it was when
      the error arose. */
  datatype ResurgenceContext = ResurgenceContext(
    callStack: seq<Machine.Frame>,
    constantStack: seq<Constant>,
    rustAndNativeFns: seq<Machine.RustFunc>,
    instruction: Instruction,
    instructionPointer: nat,
    recursionDepth: nat)

  class ResurgenceError {
    var errorType: ResurgenceErrorKind
    var errorMessage: Str
    var context: Option<ResurgenceContext>
    var traceBack: seq<Str>

    /** `ResurgenceError::from` (resurgence_error.rs:39-46): the given kind and
        message, no context and an empty traceback. */
    constructor From(errorType: ResurgenceErrorKind, errorMessage: Str)
      ensures this.errorType == errorType && this.errorMessage == errorMessage
      ensures context == None && traceBack == []
    {
      this.errorType := errorType;
      this.errorMessage := errorMessage;
      context := None;
      traceBack := [];
    }

    /** add_trace (resurgence_error.rs:51-53): one entry at the end, nothing else changes. */
    method AddTrace(trace: Str)
      modifies this
      ensures traceBack == old(traceBack) + [trace]
      ensures errorType == old(errorType) && errorMessage == old(errorMessage) && context == old(context)
    {
      traceBack := traceBack + [trace];
    }
  }
}
