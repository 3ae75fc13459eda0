/** The byte values of src/api/parser_constants.rs, which the older reader and
    writer under src/api/ use, and the instruction match of that reader. Unlike
    the current format, every value here is known, so the distinctness the
    decoder relies on is a fact about constants rather than an assumption. */
module LegacyFormat {
  import opened Types
  import opened Format

  const MAGIC_NUMBER: u32 := 0x52564D88
  const VERSION: u16 := 3

  const CONST_INT: u8 := 0x01
  const CONST_DOUBLE: u8 := 0x02
  const CONST_STRING: u8 := 0x03
  const CONST_BOOLEAN: u8 := 0x04
  const CONST_ADDRESS: u8 := 0x05

  const LOC_CONSTANT: u8 := 0x01
  const LOC_ACCUMULATOR: u8 := 0x02
  const LOC_GLOBAL: u8 := 0x03
  const LOC_LOCAL: u8 := 0x04

  const REF_AS_IS: u8 := 0x01
  const REF_DEREFERENCE: u8 := 0x02

  const INST_NOOP: u8 := 0x00
  const INST_ALLOC: u8 := 0x01
  const INST_FREE: u8 := 0x02
  const INST_JUMP: u8 := 0x03
  const INST_CALL: u8 := 0x04
  const INST_EXTCALL: u8 := 0x05
  const INST_MOV: u8 := 0x06
  const INST_CPY: u8 := 0x07
  const INST_REF: u8 := 0x08
  const INST_STACK_PUSH: u8 := 0x09
  const INST_STACK_POP: u8 := 0x0A
  const INST_ADD: u8 := 0x0B
  const INST_SUB: u8 := 0x0C
  const INST_MUL: u8 := 0x0D
  const INST_DIV: u8 := 0x0E
  const INST_EQUAL: u8 := 0x0F
  const INST_NOT_EQUAL: u8 := 0x10
  const INST_GREATER: u8 := 0x11
  const INST_LESS: u8 := 0x12
  const INST_GREATER_EQUAL: u8 := 0x13
  const INST_LESS_EQUAL: u8 := 0x14
  const INST_FRAME_ALLOC: u8 := 0x15
  const INST_FRAME_FREE: u8 := 0x16
  const INST_STACK_MOV: u8 := 0x17
  const INST_MOD: u8 := 0x18

  /** The CONST_* bytes in declaration order. */
  const CONST_TAGS: seq<u8> := [CONST_INT, CONST_DOUBLE, CONST_STRING, CONST_BOOLEAN, CONST_ADDRESS]

  /** Every INST_* byte in declaration order. */
  const INST_CODES: seq<u8> := [
    INST_NOOP, INST_ALLOC, INST_FREE, INST_JUMP, INST_CALL, INST_EXTCALL, INST_MOV, INST_CPY,
    INST_REF, INST_STACK_PUSH, INST_STACK_POP, INST_ADD, INST_SUB, INST_MUL, INST_DIV,
    INST_EQUAL, INST_NOT_EQUAL, INST_GREATER, INST_LESS, INST_GREATER_EQUAL, INST_LESS_EQUAL,
    INST_FRAME_ALLOC, INST_FRAME_FREE, INST_STACK_MOV, INST_MOD]

  /** The LOC_* and REF_* bytes, in the shape the shared register decoder takes. */
  const REGS: RegTags :=
    RegTags(LOC_CONSTANT, LOC_ACCUMULATOR, LOC_GLOBAL, LOC_LOCAL, REF_AS_IS, REF_DEREFERENCE)

  /** The arms of the older reader's instruction match, in source order. It has
      no arm for INST_FRAME_ALLOC, INST_FRAME_FREE, INST_STACK_MOV or INST_MOD. */
  const ARMS: Arms := [
    (INST_NOOP, OpNoop), (INST_ALLOC, OpAlloc), (INST_FREE, OpFree), (INST_JUMP, OpJump),
    (INST_CALL, OpCall), (INST_EXTCALL, OpExtCall), (INST_MOV, OpMov), (INST_CPY, OpCpy),
    (INST_REF, OpRef), (INST_STACK_PUSH, OpStackPush), (INST_STACK_POP, OpStackPop),
    (INST_ADD, OpAdd), (INST_SUB, OpSub), (INST_MUL, OpMul), (INST_DIV, OpDiv),
    (INST_EQUAL, OpEqual), (INST_NOT_EQUAL, OpNotEqual), (INST_GREATER, OpGreater),
    (INST_LESS, OpLess), (INST_GREATER_EQUAL, OpGreaterEqual), (INST_LESS_EQUAL, OpLessEqual)]

  lemma ConstTagsDistinct()
    ensures forall i, j :: 0 <= i < j < |CONST_TAGS| ==> CONST_TAGS[i] != CONST_TAGS[j]
  {
  }

  lemma RegsDistinct()
    ensures RegTagsDistinct(REGS)
  {
  }

  /** The opcodes are pairwise distinct and NOOP is the zero byte. */
  lemma InstCodesDistinct()
    ensures INST_NOOP == 0
    ensures forall i, j :: 0 <= i < j < |INST_CODES| ==> INST_CODES[i] != INST_CODES[j]
  {
  }

  /** The k-th arm of the match is for byte k. */
  lemma ArmsIndexed()
    ensures IndexedArms(ARMS)
  {
  }

  /** The variants of the instruction enum that the older writer's match covers. */
  predicate Writable(i: Instruction) {
    !(i.FrameAlloc? || i.FrameFree? || i.Ret? || i.StackMov? || i.Mod?)
  }

  /** The opcode byte the older writer pushes before an instruction; it is the
      byte of the reader arm for the same opcode. */
  function OpcodeByte(i: Instruction): (b: u8)
    requires Writable(i)
    ensures b < |ARMS| && ARMS[b] == (b, OpcodeOf(i))
  {
    match i
    case Alloc(_) => INST_ALLOC
    case Free(_) => INST_FREE
    case Jump(_) => INST_JUMP
    case Call(_) => INST_CALL
    case ExtCall(_) => INST_EXTCALL
    case Mov(_, _, _, _) => INST_MOV
    case Cpy(_, _, _, _) => INST_CPY
    case Ref(_, _, _, _) => INST_REF
    case StackPush(_, _) => INST_STACK_PUSH
    case StackPop => INST_STACK_POP
    case Add(_, _, _) => INST_ADD
    case Sub(_, _, _) => INST_SUB
    case Mul(_, _, _) => INST_MUL
    case Div(_, _, _) => INST_DIV
    case Equal(_, _) => INST_EQUAL
    case NotEqual(_, _) => INST_NOT_EQUAL
    case Greater(_, _) => INST_GREATER
    case Less(_, _) => INST_LESS
    case GreaterEqual(_, _) => INST_GREATER_EQUAL
    case LessEqual(_, _) => INST_LESS_EQUAL
  }

  /** The reader's match selects, for the byte the writer emits, the opcode of the instruction written. */
  lemma OpcodeByteSelects(i: Instruction)
    requires Writable(i)
    ensures FindOp(ARMS, OpcodeByte(i)) == Some(OpcodeOf(i))
  {
    ArmsIndexed();
    FindOpIndexed(ARMS, OpcodeByte(i));
  }

  /** Arms that select, for every byte the older writer emits, the opcode it was emitted for. */
  ghost predicate SelectsWritable(arms: Arms) {
    forall i :: Writable(i) ==> FindOp(arms, OpcodeByte(i)) == Some(OpcodeOf(i))
  }

  lemma ArmsSelectWritable()
    ensures SelectsWritable(ARMS)
  {
    forall i | Writable(i) ensures FindOp(ARMS, OpcodeByte(i)) == Some(OpcodeOf(i)) {
      OpcodeByteSelects(i);
    }
  }

  /** A byte has an arm exactly when it is at most INST_LESS_EQUAL; in particular the
      declared INST_FRAME_ALLOC, INST_FRAME_FREE, INST_STACK_MOV and INST_MOD have none. */
  lemma KnownOpcodes(b: u8)
    ensures FindOp(ARMS, b).Some? <==> b <= INST_LESS_EQUAL
    ensures FindOp(ARMS, b).Some? ==> FindOp(ARMS, b) == Some(ARMS[b].1)
  {
    ArmsIndexed();
    if b <= INST_LESS_EQUAL {
      FindOpIndexed(ARMS, b);
    }
  }
}
