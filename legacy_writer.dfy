/** The older writer of src/api/codewriter.rs in the form the source gives it:
    one growing `Vec<u8>` and loops over the pool, the imports and the
    instructions. Each method is proved to append exactly the bytes of the
    encoder of the same name in legacy_codec.dfy, so what legacy_roundtrip.dfy
    proves of those encoders holds of this writer's output. */
module LegacyWriter {
  import opened Types
  import opened Primitives
  import opened Format
  import opened LegacyFormat
  import LegacyCodec
  import Codec
  import CodeWriter

  /** The magic number and the version (codewriter.rs:66-70). */
  method WriteHeader(w: CodeWriter.ByteBuf)
    modifies w
    ensures w.bytes == old(w.bytes) + LegacyCodec.EncodeHeader()
  {
    Pow256Values();
    w.WriteBE(MAGIC_NUMBER, 4);
    w.WriteBE(VERSION, 2);
    CodeWriter.Assoc(old(w.bytes), ToBE(MAGIC_NUMBER, 4), ToBE(VERSION, 2));
  }

  /** One arm of the pool loop: the tag byte, then the payload; a boolean is
      written as 0x00 or 0x01. The source's match has no Vec arm
      (codewriter.rs:75-99). */
  method WriteConstant(w: CodeWriter.ByteBuf, c: Constant)
    requires !c.Vec?
    modifies w
    ensures w.bytes == old(w.bytes) + LegacyCodec.EncodeConstant(c)
  {
    Pow256Values();
    match c
    case Int(v) =>
      w.Push(CONST_INT);
      w.WriteBE(I64Bits(v), 8);
      CodeWriter.Assoc(old(w.bytes), [CONST_INT], ToBE(I64Bits(v), 8));
    case Double(bits) =>
      w.Push(CONST_DOUBLE);
      w.WriteBE(bits, 8);
      CodeWriter.Assoc(old(w.bytes), [CONST_DOUBLE], ToBE(bits, 8));
    case String(s) =>
      w.Push(CONST_STRING);
      CodeWriter.WriteString(w, s);
      CodeWriter.Assoc(old(w.bytes), [CONST_STRING], Codec.EncodeString(s));
    case Boolean(b) =>
      w.Push(CONST_BOOLEAN);
      w.Push(if b then 0x01 else 0x00);
      CodeWriter.Assoc(old(w.bytes), [CONST_BOOLEAN], [if b then 0x01 else 0x00]);
    case Address(r) =>
      w.Push(CONST_ADDRESS);
      CodeWriter.WriteRegister(w, REGS, r);
      CodeWriter.Assoc(old(w.bytes), [CONST_ADDRESS], Codec.EncodeRegister(REGS, r));
  }

  /** The pool: its length `as u32`, then each constant (codewriter.rs:72-100). */
  method WritePool(w: CodeWriter.ByteBuf, pool: seq<Constant>)
    requires LegacyCodec.NoVec(pool)
    modifies w
    ensures w.bytes == old(w.bytes) + LegacyCodec.EncodePool(pool)
  {
    Pow256Values();
    w.WriteBE(|pool| % U32_LIMIT, 4);
    ghost var start := w.bytes;
    ghost var done: Bytes := [];
    var i := 0;
    while i < |pool|
      invariant i <= |pool| && LegacyCodec.NoVec(pool[..i]) && done == LegacyCodec.EncodeConstants(pool[..i])
      invariant w.bytes == start + done
    {
      WriteConstant(w, pool[i]);
      CodeWriter.Assoc(start, done, LegacyCodec.EncodeConstant(pool[i]));
      EncodeConstantsSnoc(pool[..i], pool[i]);
      CodeWriter.TakeNext(pool, i);
      done := done + LegacyCodec.EncodeConstant(pool[i]);
      i := i + 1;
    }
    CodeWriter.TakeAll(pool, i);
    CodeWriter.Assoc(old(w.bytes), ToBE(|pool| % U32_LIMIT, 4), LegacyCodec.EncodeConstants(pool));
  }

  /** One arm of the instruction loop: the opcode byte, then the operands
      (codewriter.rs:110-214). The source's match has no arm for FrameAlloc,
      FrameFree, Ret, StackMov or Mod. */
  method WriteInstruction(w: CodeWriter.ByteBuf, i: Instruction)
    requires Writable(i)
    modifies w
    ensures w.bytes == old(w.bytes) + LegacyCodec.EncodeInstruction(i)
  {
    w.Push(OpcodeByte(i));
    CodeWriter.WriteOperands(w, REGS, i);
    CodeWriter.Assoc(old(w.bytes), [OpcodeByte(i)], Codec.EncodeOperands(REGS, i));
  }

  /** The instructions, one after the other (codewriter.rs:108-215). */
  method WriteInstructions(w: CodeWriter.ByteBuf, instrs: seq<Instruction>)
    requires LegacyCodec.AllWritable(instrs)
    modifies w
    ensures w.bytes == old(w.bytes) + LegacyCodec.EncodeInstructions(instrs)
  {
    ghost var start := w.bytes;
    ghost var done: Bytes := [];
    var i := 0;
    while i < |instrs|
      invariant i <= |instrs| && LegacyCodec.AllWritable(instrs[..i])
      invariant done == LegacyCodec.EncodeInstructions(instrs[..i])
      invariant w.bytes == start + done
    {
      WriteInstruction(w, instrs[i]);
      CodeWriter.Assoc(start, done, LegacyCodec.EncodeInstruction(instrs[i]));
      EncodeInstructionsSnoc(instrs[..i], instrs[i]);
      CodeWriter.TakeNext(instrs, i);
      done := done + LegacyCodec.EncodeInstruction(instrs[i]);
      i := i + 1;
    }
    CodeWriter.TakeAll(instrs, i);
  }

  /** write_bytecode (codewriter.rs:64-218): the header, the pool, the import
      table and the instructions. Writing into a `Vec<u8>` never fails, so the
      `io::Error` of the source's result never arises. */
  method WriteBytecode(h: LegacyCodec.Holder) returns (out: Bytes)
    requires LegacyCodec.NoVec(h.constantPool) && LegacyCodec.AllWritable(h.instructions)
    ensures out == LegacyCodec.EncodeBytecode(h)
  {
    var w := new CodeWriter.ByteBuf();
    WriteHeader(w);
    assert w.bytes == LegacyCodec.EncodeHeader();
    WritePool(w, h.constantPool);
    CodeWriter.WriteImportTable(w, h.imports);
    WriteInstructions(w, h.instructions);
    out := w.bytes;
  }

  // ---------------------------------------------------------------------------
  // Each loop appends one encoding to those of the elements before it.

  lemma {:induction false} EncodeConstantsSnoc(cs: seq<Constant>, c: Constant)
    requires LegacyCodec.NoVec(cs) && !c.Vec?
    ensures LegacyCodec.NoVec(cs + [c])
    ensures LegacyCodec.EncodeConstants(cs + [c])
         == LegacyCodec.EncodeConstants(cs) + LegacyCodec.EncodeConstant(c)
  {
    if cs == [] {
      CodeWriter.SnocEmpty(c);
    } else {
      CodeWriter.SnocTail(cs, c);
      EncodeConstantsSnoc(cs[1..], c);
      CodeWriter.Assoc(LegacyCodec.EncodeConstant(cs[0]), LegacyCodec.EncodeConstants(cs[1..]),
                       LegacyCodec.EncodeConstant(c));
    }
  }

  lemma {:induction false} EncodeInstructionsSnoc(instrs: seq<Instruction>, i: Instruction)
    requires LegacyCodec.AllWritable(instrs) && Writable(i)
    ensures LegacyCodec.AllWritable(instrs + [i])
    ensures LegacyCodec.EncodeInstructions(instrs + [i])
         == LegacyCodec.EncodeInstructions(instrs) + LegacyCodec.EncodeInstruction(i)
  {
    if instrs == [] {
      CodeWriter.SnocEmpty(i);
    } else {
      CodeWriter.SnocTail(instrs, i);
      EncodeInstructionsSnoc(instrs[1..], i);
      CodeWriter.Assoc(LegacyCodec.EncodeInstruction(instrs[0]), LegacyCodec.EncodeInstructions(instrs[1..]),
                       LegacyCodec.EncodeInstruction(i));
    }
  }
}
