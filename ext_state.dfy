/** The argument stack handed to host functions (src/ext_func/resurgence_state.rs):
    a LIFO of values with typed pops and pushes. */
module ExtState {
  import opened Types
  import Primitives

  /** Why a typed pop failed: the value on top was not of the expected kind. The
      messages of the source ("Invalid type, expected i64", ...) are named by the
      kind they expected. */
  datatype StateError = ExpectedI64 | ExpectedF64 | ExpectedString | ExpectedBool | InvalidType

  const TRUE_TEXT: Str := [0x74, 0x72, 0x75, 0x65]
  const FALSE_TEXT: Str := [0x66, 0x61, 0x6C, 0x73, 0x65]

  /** `bool::to_string`. */
  function BoolText(b: bool): (t: Str)
    ensures Primitives.IsAscii(t) && (t == TRUE_TEXT <==> b)
  {
    if b then TRUE_TEXT else FALSE_TEXT
  }

  /** Text DecimalValue can read: an optional minus sign, then digits. */
  predicate Decimal(s: Str) {
    |s| >= 1 && Primitives.AllDigits(s[1..]) && (s[0] == Primitives.MINUS_CHAR || Primitives.AllDigits(s))
  }

  /** The text get_value_as_string gives for a value (resurgence_state.rs:70-79):
      Int as its decimal digits, a String as itself, a Boolean as "true" or
      "false", a Double through `showDouble` (float formatting is not modelled);
      an Address or a Vec has no text. */
  function AsText(c: Constant, showDouble: u64 -> Str): (r: Result<Str, StateError>)
    ensures r.Err? <==> c.Address? || c.Vec?
    ensures r.Err? ==> r.error == InvalidType
    ensures c.Int? ==> r.Ok? && Decimal(r.value) && Primitives.DecimalValue(r.value) == c.i
    ensures c.String? ==> r == Ok(c.s)
    ensures c.Boolean? ==> r.Ok? && (r.value == TRUE_TEXT <==> c.b)
  {
    match c
    case Int(i) =>
      Primitives.DecimalRoundTrip(i);
      Ok(Primitives.DecimalText(i))
    case Double(bits) => Ok(showDouble(bits))
    case String(s) => Ok(s)
    case Boolean(b) => Ok(BoolText(b))
    case _ => Err(InvalidType)
  }

  class ResurgenceState {
    /** The borrowed argument vector; its last element is the top. */
    var args: seq<Constant>

    /** `ResurgenceState::new` (resurgence_state.rs:8-12). */
    constructor (args: seq<Constant>)
      ensures this.args == args
    {
      this.args := args;
    }

    /** The value on top, without popping it. */
    function Top(): Constant
      reads this
      requires |args| > 0
    {
      args[|args| - 1]
    }

    /** get_i64 (resurgence_state.rs:22-27). The top is popped before its kind is
        looked at, so a value of the wrong kind is gone as well. An empty stack
        panics at the `unwrap`. */
    method GetI64() returns (r: Result<i64, StateError>)
      requires |args| > 0
      modifies this
      ensures args == old(args)[..|old(args)| - 1]
      ensures r.Ok? <==> old(Top()).Int?
      ensures r.Ok? ==> r.value == old(Top()).i
      ensures r.Err? ==> r.error == ExpectedI64
    {
      var c := args[|args| - 1];
      args := args[..|args| - 1];
      if c.Int? {
        return Ok(c.i);
      }
      return Err(ExpectedI64);
    }

    /** get_f64 (resurgence_state.rs:34-39), the f64 kept as its bit pattern. */
    method GetF64() returns (r: Result<u64, StateError>)
      requires |args| > 0
      modifies this
      ensures args == old(args)[..|old(args)| - 1]
      ensures r.Ok? <==> old(Top()).Double?
      ensures r.Ok? ==> r.value == old(Top()).bits
      ensures r.Err? ==> r.error == ExpectedF64
    {
      var c := args[|args| - 1];
      args := args[..|args| - 1];
      if c.Double? {
        return Ok(c.bits);
      }
      return Err(ExpectedF64);
    }

    /** get_string (resurgence_state.rs:46-51). */
    method GetString() returns (r: Result<Str, StateError>)
      requires |args| > 0
      modifies this
      ensures args == old(args)[..|old(args)| - 1]
      ensures r.Ok? <==> old(Top()).String?
      ensures r.Ok? ==> r.value == old(Top()).s
      ensures r.Err? ==> r.error == ExpectedString
    {
      var c := args[|args| - 1];
      args := args[..|args| - 1];
      if c.String? {
        return Ok(c.s);
      }
      return Err(ExpectedString);
    }

    /** get_bool (resurgence_state.rs:58-63). */
    method GetBool() returns (r: Result<bool, StateError>)
      requires |args| > 0
      modifies this
      ensures args == old(args)[..|old(args)| - 1]
      ensures r.Ok? <==> old(Top()).Boolean?
      ensures r.Ok? ==> r.value == old(Top()).b
      ensures r.Err? ==> r.error == ExpectedBool
    {
      var c := args[|args| - 1];
      args := args[..|args| - 1];
      if c.Boolean? {
        return Ok(c.b);
      }
      return Err(ExpectedBool);
    }

    /** get_value_as_string (resurgence_state.rs:70-79). */
    method GetValueAsString(showDouble: u64 -> Str) returns (r: Result<Str, StateError>)
      requires |args| > 0
      modifies this
      ensures args == old(args)[..|old(args)| - 1]
      ensures r == AsText(old(Top()), showDouble)
    {
      var c := args[|args| - 1];
      args := args[..|args| - 1];
      match c
      case Int(i) => r := Ok(Primitives.DecimalText(i));
      case Double(bits) => r := Ok(showDouble(bits));
      case String(s) => r := Ok(s);
      case Boolean(b) => r := Ok(if b then TRUE_TEXT else FALSE_TEXT);
      case _ => r := Err(InvalidType);
    }

    /** push_i64 (resurgence_state.rs:89-91). */
    method PushI64(v: i64)
      modifies this
      ensures args == old(args) + [Int(v)]
    {
      args := args + [Int(v)];
    }

    /** push_f64 (resurgence_state.rs:101-103). */
    method PushF64(bits: u64)
      modifies this
      ensures args == old(args) + [Double(bits)]
    {
      args := args + [Double(bits)];
    }

    /** push_string (resurgence_state.rs:113-115). */
    method PushString(v: Str)
      modifies this
      ensures args == old(args) + [String(v)]
    {
      args := args + [String(v)];
    }

    /** push_bool (resurgence_state.rs:125-127). */
    method PushBool(v: bool)
      modifies this
      ensures args == old(args) + [Boolean(v)]
    {
      args := args + [Boolean(v)];
    }

    /** A pushed i64 is what the next get_i64 returns, and the stack is back as it was. */
    method PushThenGetI64(v: i64) returns (r: Result<i64, StateError>)
      modifies this
      ensures r == Ok(v) && args == old(args)
    {
      PushI64(v);
      r := GetI64();
    }

    /** The same round trip for strings. */
    method PushThenGetString(v: Str) returns (r: Result<Str, StateError>)
      modifies this
      ensures r == Ok(v) && args == old(args)
    {
      PushString(v);
      r := GetString();
    }

    /** The same round trip for booleans. */
    method PushThenGetBool(v: bool) returns (r: Result<bool, StateError>)
      modifies this
      ensures r == Ok(v) && args == old(args)
    {
      PushBool(v);
      r := GetBool();
    }

    /** The same round trip for f64 bit patterns. */
    method PushThenGetF64(bits: u64) returns (r: Result<u64, StateError>)
      modifies this
      ensures r == Ok(bits) && args == old(args)
    {
      PushF64(bits);
      r := GetF64();
    }
  }
}
