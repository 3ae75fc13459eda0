/** What the older reader (src/api/codereader.rs) reads and the older writer
    (src/api/codewriter.rs) writes, as functions over a byte string, in the
    style of codec.dfy and sharing its fixed-width, string, register and
    operand readers. The differences from the current format: the version is one
    u16 that must equal VERSION, a boolean is any non-zero byte, there is no
    Vec constant and no export table, the reader has no import table although
    the writer still emits one, and the instruction match is LegacyFormat.ARMS. */
module LegacyCodec {
  import opened Types
  import opened Primitives
  import opened Format
  import opened LegacyFormat
  import Codec

  /** The older holder: the reader fills the pool and the instructions, which it
      stores directly rather than as `Option`s; the writer also writes `imports`. */
  datatype Holder = Holder(constantPool: seq<Constant>, imports: seq<Str>, instructions: seq<Instruction>)

  /** The magic number, then the version, which must be VERSION exactly. */
  function ReadHeader(buf: Bytes): (r: Codec.Read<()>)
    ensures r.Ok? ==> r.value.next == 6 <= |buf|
  {
    var m :- Codec.ReadU32(buf, 0);
    if m.value != MAGIC_NUMBER then Err(Codec.MissingHeader)
    else
      var ver :- Codec.ReadU16(buf, m.next);
      if ver.value != VERSION then Err(Codec.UnsupportedVersion(ver.value, 0))
      else Ok(Codec.Parsed((), ver.next))
  }

  /** One constant: its tag byte, then the payload; a tag with no arm is an error. */
  function ReadConstant(buf: Bytes, pos: nat): (r: Codec.Read<Constant>)
    ensures r.Ok? ==> pos < r.value.next <= |buf| && !r.value.value.Vec?
  {
    var t :- Codec.ReadU8(buf, pos);
    if t.value == CONST_INT then
      var v :- Codec.ReadI64(buf, t.next);
      Ok(Codec.Parsed(Int(v.value), v.next))
    else if t.value == CONST_DOUBLE then
      var v :- Codec.ReadU64(buf, t.next);
      Ok(Codec.Parsed(Double(v.value), v.next))
    else if t.value == CONST_STRING then
      var s :- Codec.ReadString(buf, t.next);
      Ok(Codec.Parsed(String(s.value), s.next))
    else if t.value == CONST_BOOLEAN then
      var v :- Codec.ReadU8(buf, t.next);
      Ok(Codec.Parsed(Boolean(v.value != 0x00), v.next))
    else if t.value == CONST_ADDRESS then
      var a :- Codec.ReadRegister(REGS, buf, t.next);
      Ok(Codec.Parsed(Address(a.value), a.next))
    else
      Err(Codec.BadConstantTag(t.value))
  }

  /** `count` more constants appended to acc. */
  function ReadConstants(buf: Bytes, pos: nat, count: nat, acc: seq<Constant>)
    : (r: Codec.Read<seq<Constant>>)
    requires pos <= |buf|
    ensures r.Ok? ==> pos <= r.value.next <= |buf| && |r.value.value| == |acc| + count
    decreases count
  {
    if count == 0 then Ok(Codec.Parsed(acc, pos))
    else
      var c :- ReadConstant(buf, pos);
      ReadConstants(buf, c.next, count - 1, acc + [c.value])
  }

  /** The constant pool: a u32 count, then the constants. */
  function ReadPool(buf: Bytes, pos: nat): (r: Codec.Read<seq<Constant>>)
    ensures r.Ok? ==> pos <= r.value.next <= |buf|
  {
    var n :- Codec.ReadU32(buf, pos);
    ReadConstants(buf, n.next, n.value, [])
  }

  /** read_bytecode: the header, the pool, and then opcodes up to the end of the buffer. */
  function ReadBytecode(buf: Bytes): (r: Result<Holder, Codec.CodecError>)
    ensures r.Ok? ==> r.value.imports == []
  {
    var h :- ReadHeader(buf);
    var pool :- ReadPool(buf, h.next);
    var instrs :- Codec.ReadInstrs(REGS, ARMS, buf, pool.next, []);
    Ok(Holder(pool.value, [], instrs))
  }

  // ---------------------------------------------------------------------------
  // Encoders.

  function EncodeHeader(): (e: Bytes)
    ensures |e| == 6
  {
    ToBE(MAGIC_NUMBER, 4) + ToBE(VERSION, 2)
  }

  /** The constants the older writer's match covers: every variant but Vec. */
  predicate NoVec(cs: seq<Constant>) {
    forall k :: 0 <= k < |cs| ==> !cs[k].Vec?
  }

  function EncodeConstant(c: Constant): (e: Bytes)
    requires !c.Vec?
    ensures |e| >= 1
  {
    match c
    case Int(v) => [CONST_INT] + ToBE(I64Bits(v), 8)
    case Double(bits) => [CONST_DOUBLE] + ToBE(bits, 8)
    case String(s) => [CONST_STRING] + Codec.EncodeString(s)
    case Boolean(b) => [CONST_BOOLEAN] + [if b then 0x01 else 0x00]
    case Address(r) => [CONST_ADDRESS] + Codec.EncodeRegister(REGS, r)
  }

  function EncodeConstants(cs: seq<Constant>): Bytes
    requires NoVec(cs)
  {
    if cs == [] then [] else EncodeConstant(cs[0]) + EncodeConstants(cs[1..])
  }

  /** The pool: its length `as u32`, then the constants. */
  function EncodePool(pool: seq<Constant>): Bytes
    requires NoVec(pool)
  {
    ToBE(|pool| % U32_LIMIT, 4) + EncodeConstants(pool)
  }

  predicate AllWritable(instrs: seq<Instruction>) {
    forall k :: 0 <= k < |instrs| ==> Writable(instrs[k])
  }

  /** One instruction: its opcode byte, then the same operands as the current writer's. */
  function EncodeInstruction(i: Instruction): (e: Bytes)
    requires Writable(i)
    ensures |e| >= 1 && e[0] == OpcodeByte(i)
  {
    [OpcodeByte(i)] + Codec.EncodeOperands(REGS, i)
  }

  function EncodeInstructions(instrs: seq<Instruction>): Bytes
    requires AllWritable(instrs)
  {
    if instrs == [] then [] else EncodeInstruction(instrs[0]) + EncodeInstructions(instrs[1..])
  }

  /** write_bytecode: the header, the pool, the import table, the instructions. */
  function EncodeBytecode(h: Holder): Bytes
    requires NoVec(h.constantPool) && AllWritable(h.instructions)
  {
    EncodeHeader() + EncodePool(h.constantPool) + Codec.EncodeImportTable(h.imports)
    + EncodeInstructions(h.instructions)
  }
}
