/** Shared datatypes of the Resurgence VM: fixed-width integers, the register
    descriptors, the instruction set, run-time values and the error kinds.
    Transcribed from src/objects/register.rs, src/objects/instruction.rs,
    src/objects/constant.rs and src/objects/resurgence_error.rs. */
module Types {

  // Rust's fixed-width integers as subsets of the unbounded integers.
  const U8_LIMIT: int := 0x100
  const U16_LIMIT: int := 0x1_0000
  const U32_LIMIT: int := 0x1_0000_0000
  const U64_LIMIT: int := 0x1_0000_0000_0000_0000
  const I64_MIN: int := -0x8000_0000_0000_0000
  const I64_MAX: int := 0x7FFF_FFFF_FFFF_FFFF

  type u8 = x: int | 0 <= x < U8_LIMIT
  type u16 = x: int | 0 <= x < U16_LIMIT
  type u32 = x: int | 0 <= x < U32_LIMIT
  type u64 = x: int | 0 <= x < U64_LIMIT
  type i64 = x: int | I64_MIN <= x <= I64_MAX

  type Bytes = seq<u8>

  /** A Rust `String`: its UTF-8 encoded bytes. */
  type Str = Bytes

  datatype Option<T> = None | Some(value: T)

  /** An error-carrying result, usable with `:-`. */
  datatype Result<T, E> = Ok(value: T) | Err(error: E) {
    predicate IsFailure() { Err? }
    function PropagateFailure<U>(): Result<U, E>
      requires Err?
    {
      Err(error)
    }
    function Extract(): T
      requires Ok?
    {
      value
    }
  }

  /** Where a register lives (register.rs). */
  datatype RegisterLocation = ConstantPool | Accumulator | Global | Local

  /** A register: an index and the location it indexes into. */
  datatype Register = Register(index: u32, loc: RegisterLocation)

  /** Whether an operand names its register directly or through the address it holds. */
  datatype RegisterReference = AsIs | Dereference

  /** The instruction set (instruction.rs), without the feature-gated vectorized instructions. */
  datatype Instruction =
    | Alloc(size: u32)
    | FrameAlloc(size: u32, loc: RegisterLocation)
    | Free(count: u32)
    | FrameFree(size: u32, loc: RegisterLocation)
    | Jump(offset: i64)
    | Call(target: u64)
    | ExtCall(id: u64)
    | Ret
    | Mov(dst: Register, dstRef: RegisterReference, src: Register, srcRef: RegisterReference)
    | Cpy(dst: Register, dstRef: RegisterReference, src: Register, srcRef: RegisterReference)
    | Ref(dst: Register, dstRef: RegisterReference, src: Register, srcRef: RegisterReference)
    | StackPush(reg: Register, rref: RegisterReference)
    | StackPop
    | StackMov(reg: Register, rref: RegisterReference)
    | Add(dst: Register, a: Register, b: Register)
    | Sub(dst: Register, a: Register, b: Register)
    | Mul(dst: Register, a: Register, b: Register)
    | Div(dst: Register, a: Register, b: Register)
    | Mod(dst: Register, a: Register, b: Register)
    | Equal(a: Register, b: Register)
    | NotEqual(a: Register, b: Register)
    | Greater(a: Register, b: Register)
    | Less(a: Register, b: Register)
    | GreaterEqual(a: Register, b: Register)
    | LessEqual(a: Register, b: Register)

  /** A run-time value (constant.rs). A `Double` is kept as its IEEE-754 bit
      pattern: the model never computes with floating point. */
  datatype Constant =
    | Int(i: i64)
    | Double(bits: u64)
    | String(s: Str)
    | Boolean(b: bool)
    | Address(reg: Register)
    | Vec(elems: seq<Constant>)

  /** ResurgenceErrorKind (resurgence_error.rs), plus the `std::io::ErrorKind::InvalidInput`
      that cpy.rs and ref_reg.rs return instead. */
  datatype ErrorKind =
    | InvalidOperation
    | MemoryAddressNone
    | Overflow
    | RegisterOutOfBounds
    | MissingImports
    | InvalidInput

  predicate IsNumeric(c: Constant) {
    c.Int? || c.Double?
  }
}
