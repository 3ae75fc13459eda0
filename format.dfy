/** The tag bytes of the bytecode format. The file that fixes them for the
    current reader and writer (src/bytecode/parser_constants.rs) is not part of
    this model, so they are a `Format` value constrained only by the
    distinctness the decoder relies on; the legacy values of
    src/api/parser_constants.rs are a concrete instance in module LegacyFormat. */
module Format {
  import opened Types

  /** One opcode constant per arm of the reader's instruction match. */
  datatype Opcode =
    | OpNoop | OpAlloc | OpFrameAlloc | OpFree | OpFrameFree | OpJump | OpCall | OpExtCall
    | OpRet | OpMov | OpCpy | OpRef | OpStackPush | OpStackMov | OpStackPop
    | OpAdd | OpSub | OpMul | OpDiv | OpMod
    | OpEqual | OpNotEqual | OpGreater | OpLess | OpGreaterEqual | OpLessEqual

  /** The CONST_* bytes. */
  datatype ConstTags = ConstTags(tagInt: u8, tagDouble: u8, tagString: u8, tagBoolean: u8,
                                 tagAddress: u8, tagVec: u8)

  /** The LOC_* and REF_* bytes. */
  datatype RegTags = RegTags(locConstant: u8, locAccumulator: u8, locGlobal: u8, locLocal: u8,
                             refAsIs: u8, refDereference: u8)

  datatype Format = Format(magic: u32, verMajor: u16, verMinor: u16,
                           consts: ConstTags, regs: RegTags, code: Opcode -> u8)

  predicate ConstTagsDistinct(t: ConstTags) {
    t.tagInt != t.tagDouble && t.tagInt != t.tagString && t.tagInt != t.tagBoolean &&
    t.tagInt != t.tagAddress && t.tagInt != t.tagVec &&
    t.tagDouble != t.tagString && t.tagDouble != t.tagBoolean && t.tagDouble != t.tagAddress &&
    t.tagDouble != t.tagVec &&
    t.tagString != t.tagBoolean && t.tagString != t.tagAddress && t.tagString != t.tagVec &&
    t.tagBoolean != t.tagAddress && t.tagBoolean != t.tagVec &&
    t.tagAddress != t.tagVec
  }

  predicate RegTagsDistinct(t: RegTags) {
    t.locConstant != t.locAccumulator && t.locConstant != t.locGlobal &&
    t.locConstant != t.locLocal && t.locAccumulator != t.locGlobal &&
    t.locAccumulator != t.locLocal && t.locGlobal != t.locLocal &&
    t.refAsIs != t.refDereference
  }

  predicate CodesDistinct(code: Opcode -> u8) {
    forall a: Opcode, b: Opcode :: a != b ==> code(a) != code(b)
  }

  /** The tag bytes are pairwise distinct, as the match arms of the reader need
      for every encoding to have one reading. */
  predicate WellFormed(fmt: Format) {
    ConstTagsDistinct(fmt.consts) && RegTagsDistinct(fmt.regs) && CodesDistinct(fmt.code)
  }

  /** The opcode arms of a reader's instruction match, as (byte, opcode) pairs in source order. */
  type Arms = seq<(u8, Opcode)>

  /** The first arm whose byte is b, as a Rust `match` selects it; None is the catch-all arm. */
  function FindOp(arms: Arms, b: u8): (r: Option<Opcode>)
    ensures r.None? <==> forall j :: 0 <= j < |arms| ==> arms[j].0 != b
  {
    if arms == [] then None
    else if arms[0].0 == b then Some(arms[0].1)
    else FindOp(arms[1..], b)
  }

  /** The arms for a list of opcodes, each with its byte under `code`. */
  function ArmsOf(code: Opcode -> u8, ops: seq<Opcode>): (arms: Arms)
    ensures |arms| == |ops|
    ensures forall j :: 0 <= j < |ops| ==> arms[j] == (code(ops[j]), ops[j])
  {
    if ops == [] then [] else [(code(ops[0]), ops[0])] + ArmsOf(code, ops[1..])
  }

  /** The arms of the match in src/bytecode/codereader.rs, in source order. */
  const READER_OPS: seq<Opcode> := [
    OpNoop, OpAlloc, OpFrameAlloc, OpFree, OpFrameFree, OpJump, OpCall, OpExtCall, OpRet,
    OpMov, OpCpy, OpRef, OpStackPush, OpStackMov, OpStackPop,
    OpAdd, OpSub, OpMul, OpDiv, OpMod,
    OpEqual, OpNotEqual, OpGreater, OpLess, OpGreaterEqual, OpLessEqual]

  function ReaderArms(fmt: Format): Arms {
    ArmsOf(fmt.code, READER_OPS)
  }

  lemma ReaderOpsComplete(k: Opcode)
    ensures k in READER_OPS
  {
  }

  /** With distinct codes, looking up the code of an opcode in the arms finds that opcode. */
  lemma {:induction false} FindOpOfCode(code: Opcode -> u8, ops: seq<Opcode>, k: Opcode)
    requires CodesDistinct(code) && k in ops
    ensures FindOp(ArmsOf(code, ops), code(k)) == Some(k)
  {
    var arms := ArmsOf(code, ops);
    if ops[0] != k {
      assert ArmsOf(code, ops)[1..] == ArmsOf(code, ops[1..]);
      FindOpOfCode(code, ops[1..], k);
    }
  }

  /** An arms table whose i-th byte is i (the legacy opcodes 0x00..0x14 in match order). */
  predicate IndexedArms(arms: Arms) {
    forall j :: 0 <= j < |arms| ==> arms[j].0 == j
  }

  lemma {:induction false} FindOpIndexed(arms: Arms, j: nat)
    requires IndexedArms(arms) && j < |arms|
    ensures FindOp(arms, arms[j].0) == Some(arms[j].1)
  {
    FindOpShifted(arms, 0, j);
  }

  lemma {:induction false} FindOpShifted(arms: Arms, base: nat, j: nat)
    requires forall m :: 0 <= m < |arms| ==> arms[m].0 == m + base
    requires j < |arms|
    ensures FindOp(arms, arms[j].0) == Some(arms[j].1)
  {
    if j > 0 {
      var rest := arms[1..];
      forall m | 0 <= m < |rest| ensures rest[m].0 == m + base + 1 {
        assert rest[m] == arms[m + 1];
      }
      FindOpShifted(rest, base + 1, j - 1);
    }
  }

  /** The opcode constant the writer emits before an instruction. */
  function OpcodeOf(i: Instruction): (k: Opcode)
    ensures k != OpNoop
  {
    match i
    case Alloc(_) => OpAlloc
    case FrameAlloc(_, _) => OpFrameAlloc
    case Free(_) => OpFree
    case FrameFree(_, _) => OpFrameFree
    case Jump(_) => OpJump
    case Call(_) => OpCall
    case ExtCall(_) => OpExtCall
    case Ret => OpRet
    case Mov(_, _, _, _) => OpMov
    case Cpy(_, _, _, _) => OpCpy
    case Ref(_, _, _, _) => OpRef
    case StackPush(_, _) => OpStackPush
    case StackPop => OpStackPop
    case StackMov(_, _) => OpStackMov
    case Add(_, _, _) => OpAdd
    case Sub(_, _, _) => OpSub
    case Mul(_, _, _) => OpMul
    case Div(_, _, _) => OpDiv
    case Mod(_, _, _) => OpMod
    case Equal(_, _) => OpEqual
    case NotEqual(_, _) => OpNotEqual
    case Greater(_, _) => OpGreater
    case Less(_, _) => OpLess
    case GreaterEqual(_, _) => OpGreaterEqual
    case LessEqual(_, _) => OpLessEqual
  }
}
