/** What src/bytecode/codereader.rs reads and src/bytecode/codewriter.rs writes,
    as functions over a byte string: a reader takes the buffer and the cursor
    position and yields the value and the position after it, or the error that
    stops the reader; an encoder gives the bytes a writer appends. The classes
    in codereader.dfy and codewriter.dfy are proved against these. */
module Codec {
  import opened Types
  import opened Primitives
  import opened Format

  /** Why a read fails. The source reports each as an `std::io::Error` with a message. */
  datatype CodecError =
    | UnexpectedEof
    | MissingHeader
    | UnsupportedVersion(major: u16, minor: u16)
    | BadUtf8
    | BadLocation(loc: u8)
    | BadReference(rref: u8)
    | BadConstantTag(tag: u8)
    | BadOpcode(op: u8)

  /** A value read and the cursor position after it. */
  datatype Parsed<T> = Parsed(value: T, next: nat)

  type Read<T> = Result<Parsed<T>, CodecError>

  /** The holder the reader fills: the reader stores every instruction as `Some`. */
  datatype CodeHolder = CodeHolder(constantPool: seq<Constant>, imports: seq<Str>,
                                   exports: map<Str, u64>, instructions: seq<Option<Instruction>>)

  // ---------------------------------------------------------------------------
  // Fixed-width reads (byteorder's read_u8, read_u16, ... on a Cursor).

  function ReadN(buf: Bytes, pos: nat, n: nat): (r: Read<Bytes>)
    ensures r.Ok? <==> pos + n <= |buf|
    ensures r.Ok? ==> r.value.next == pos + n && r.value.value == buf[pos..pos + n]
    ensures r.Err? ==> r.error == UnexpectedEof
  {
    if pos + n <= |buf| then Ok(Parsed(buf[pos..pos + n], pos + n)) else Err(UnexpectedEof)
  }

  /** An n-byte big-endian unsigned number. */
  function ReadBE(buf: Bytes, pos: nat, n: nat): (r: Read<nat>)
    ensures r.Ok? <==> pos + n <= |buf|
    ensures r.Ok? ==> r.value.next == pos + n && r.value.value < Pow256(n)
    ensures r.Ok? ==> r.value.value == FromBE(buf[pos..pos + n])
    ensures r.Err? ==> r.error == UnexpectedEof
  {
    var s :- ReadN(buf, pos, n);
    FromBEBound(s.value);
    Ok(Parsed(FromBE(s.value), s.next))
  }

  function ReadU8(buf: Bytes, pos: nat): (r: Read<u8>)
    ensures r.Ok? <==> pos < |buf|
    ensures r.Ok? ==> r.value.next == pos + 1 && r.value.value == buf[pos]
    ensures r.Err? ==> r.error == UnexpectedEof
  {
    if pos < |buf| then Ok(Parsed(buf[pos], pos + 1)) else Err(UnexpectedEof)
  }

  function ReadU16(buf: Bytes, pos: nat): (r: Read<u16>)
    ensures r.Ok? <==> pos + 2 <= |buf|
    ensures r.Ok? ==> r.value.next == pos + 2
  {
    var p :- ReadBE(buf, pos, 2);
    Pow256Values();
    Ok(Parsed(p.value, p.next))
  }

  function ReadU32(buf: Bytes, pos: nat): (r: Read<u32>)
    ensures r.Ok? <==> pos + 4 <= |buf|
    ensures r.Ok? ==> r.value.next == pos + 4
  {
    var p :- ReadBE(buf, pos, 4);
    Pow256Values();
    Ok(Parsed(p.value, p.next))
  }

  function ReadU64(buf: Bytes, pos: nat): (r: Read<u64>)
    ensures r.Ok? <==> pos + 8 <= |buf|
    ensures r.Ok? ==> r.value.next == pos + 8
  {
    var p :- ReadBE(buf, pos, 8);
    Pow256Values();
    Ok(Parsed(p.value, p.next))
  }

  /** read_i64: eight bytes, big-endian, two's complement. */
  function ReadI64(buf: Bytes, pos: nat): (r: Read<i64>)
    ensures r.Ok? <==> pos + 8 <= |buf|
    ensures r.Ok? ==> r.value.next == pos + 8
  {
    var p :- ReadU64(buf, pos);
    Ok(Parsed(BitsI64(p.value), p.next))
  }

  // ---------------------------------------------------------------------------
  // The reader's helpers (codereader.rs:20-89).

  /** read_string: a u64 byte length, then that many bytes, which must be UTF-8. */
  function ReadString(buf: Bytes, pos: nat): (r: Read<Str>)
    ensures r.Ok? ==> pos + 8 <= r.value.next <= |buf| && ValidStr(r.value.value)
    ensures r.Ok? ==> r.value.next == pos + 8 + |r.value.value|
  {
    var len :- ReadU64(buf, pos);
    var data :- ReadN(buf, len.next, len.value);
    if ValidUtf8(data.value) then Ok(data) else Err(BadUtf8)
  }

  /** read_reg_loc: one byte, one of the four LOC_* values. */
  function ReadRegLoc(t: RegTags, buf: Bytes, pos: nat): (r: Read<RegisterLocation>)
    ensures r.Ok? ==> r.value.next == pos + 1 <= |buf|
  {
    var b :- ReadU8(buf, pos);
    if b.value == t.locConstant then Ok(Parsed(ConstantPool, b.next))
    else if b.value == t.locAccumulator then Ok(Parsed(Accumulator, b.next))
    else if b.value == t.locGlobal then Ok(Parsed(Global, b.next))
    else if b.value == t.locLocal then Ok(Parsed(Local, b.next))
    else Err(BadLocation(b.value))
  }

  /** read_register: a u32 index followed by a location byte. */
  function ReadRegister(t: RegTags, buf: Bytes, pos: nat): (r: Read<Register>)
    ensures r.Ok? ==> r.value.next == pos + 5 <= |buf|
  {
    var index :- ReadU32(buf, pos);
    var loc :- ReadRegLoc(t, buf, index.next);
    Ok(Parsed(Register(index.value, loc.value), loc.next))
  }

  /** read_reg_ref: one byte, REF_AS_IS or REF_DEREFERENCE. */
  function ReadRegRef(t: RegTags, buf: Bytes, pos: nat): (r: Read<RegisterReference>)
    ensures r.Ok? ==> r.value.next == pos + 1 <= |buf|
  {
    var b :- ReadU8(buf, pos);
    if b.value == t.refAsIs then Ok(Parsed(AsIs, b.next))
    else if b.value == t.refDereference then Ok(Parsed(Dereference, b.next))
    else Err(BadReference(b.value))
  }

  /** read_constant: a tag byte and its payload; a Vec is a u8 count and that many constants. */
  function ReadConstant(fmt: Format, buf: Bytes, pos: nat): (r: Read<Constant>)
    requires pos <= |buf|
    ensures r.Ok? ==> pos < r.value.next <= |buf|
    decreases |buf| - pos, 0
  {
    var t :- ReadU8(buf, pos);
    var ct := fmt.consts;
    if t.value == ct.tagInt then
      var v :- ReadI64(buf, t.next);
      Ok(Parsed(Int(v.value), v.next))
    else if t.value == ct.tagDouble then
      var v :- ReadU64(buf, t.next);
      Ok(Parsed(Double(v.value), v.next))
    else if t.value == ct.tagString then
      var s :- ReadString(buf, t.next);
      Ok(Parsed(String(s.value), s.next))
    else if t.value == ct.tagBoolean then
      var v :- ReadU8(buf, t.next);
      Ok(Parsed(Boolean(v.value != 0), v.next))
    else if t.value == ct.tagAddress then
      var a :- ReadRegister(fmt.regs, buf, t.next);
      Ok(Parsed(Address(a.value), a.next))
    else if t.value == ct.tagVec then
      var n :- ReadU8(buf, t.next);
      var elems :- ReadConstants(fmt, buf, n.next, n.value, []);
      Ok(Parsed(Vec(elems.value), elems.next))
    else
      Err(BadConstantTag(t.value))
  }

  /** `count` more constants appended to acc, as the reader's loops push them. */
  function ReadConstants(fmt: Format, buf: Bytes, pos: nat, count: nat, acc: seq<Constant>)
    : (r: Read<seq<Constant>>)
    requires pos <= |buf|
    ensures r.Ok? ==> pos <= r.value.next <= |buf| && |r.value.value| == |acc| + count
    ensures r.Ok? ==> r.value.value[..|acc|] == acc
    decreases |buf| - pos, 1, count
  {
    if count == 0 then Ok(Parsed(acc, pos))
    else
      var c :- ReadConstant(fmt, buf, pos);
      ReadConstants(fmt, buf, c.next, count - 1, acc + [c.value])
  }

  // ---------------------------------------------------------------------------
  // Instructions.

  function ReadRegWithRef(t: RegTags, buf: Bytes, pos: nat)
    : (r: Read<(Register, RegisterReference)>)
    ensures r.Ok? ==> r.value.next == pos + 6 <= |buf|
  {
    var reg :- ReadRegister(t, buf, pos);
    var rref :- ReadRegRef(t, buf, reg.next);
    Ok(Parsed((reg.value, rref.value), rref.next))
  }

  function ReadTwoRegs(t: RegTags, buf: Bytes, pos: nat): (r: Read<(Register, Register)>)
    ensures r.Ok? ==> r.value.next == pos + 10 <= |buf|
  {
    var a :- ReadRegister(t, buf, pos);
    var b :- ReadRegister(t, buf, a.next);
    Ok(Parsed((a.value, b.value), b.next))
  }

  function ReadThreeRegs(t: RegTags, buf: Bytes, pos: nat)
    : (r: Read<(Register, Register, Register)>)
    ensures r.Ok? ==> r.value.next == pos + 15 <= |buf|
  {
    var a :- ReadRegister(t, buf, pos);
    var b :- ReadRegister(t, buf, a.next);
    var c :- ReadRegister(t, buf, b.next);
    Ok(Parsed((a.value, b.value, c.value), c.next))
  }

  function ReadMoveOperands(t: RegTags, buf: Bytes, pos: nat)
    : (r: Read<(Register, RegisterReference, Register, RegisterReference)>)
    ensures r.Ok? ==> r.value.next == pos + 12 <= |buf|
  {
    var a :- ReadRegWithRef(t, buf, pos);
    var b :- ReadRegWithRef(t, buf, a.next);
    Ok(Parsed((a.value.0, a.value.1, b.value.0, b.value.1), b.next))
  }

  /** The operands that follow an opcode byte, per arm of the reader's match;
      NOOP yields no instruction. */
  function ReadOperands(t: RegTags, op: Opcode, buf: Bytes, pos: nat)
    : (r: Read<Option<Instruction>>)
    requires pos <= |buf|
    ensures r.Ok? ==> pos <= r.value.next <= |buf|
  {
    match op
    case OpNoop => Ok(Parsed(None, pos))
    case OpAlloc =>
      var n :- ReadU32(buf, pos); Ok(Parsed(Some(Alloc(n.value)), n.next))
    case OpFrameAlloc =>
      var n :- ReadU32(buf, pos);
      var l :- ReadRegLoc(t, buf, n.next);
      Ok(Parsed(Some(FrameAlloc(n.value, l.value)), l.next))
    case OpFree =>
      var n :- ReadU32(buf, pos); Ok(Parsed(Some(Free(n.value)), n.next))
    case OpFrameFree =>
      var n :- ReadU32(buf, pos);
      var l :- ReadRegLoc(t, buf, n.next);
      Ok(Parsed(Some(FrameFree(n.value, l.value)), l.next))
    case OpJump =>
      var k :- ReadI64(buf, pos); Ok(Parsed(Some(Jump(k.value)), k.next))
    case OpCall =>
      var a :- ReadU64(buf, pos); Ok(Parsed(Some(Call(a.value)), a.next))
    case OpExtCall =>
      var id :- ReadU64(buf, pos); Ok(Parsed(Some(ExtCall(id.value)), id.next))
    case OpRet => Ok(Parsed(Some(Ret), pos))
    case OpMov =>
      var o :- ReadMoveOperands(t, buf, pos);
      Ok(Parsed(Some(Mov(o.value.0, o.value.1, o.value.2, o.value.3)), o.next))
    case OpCpy =>
      var o :- ReadMoveOperands(t, buf, pos);
      Ok(Parsed(Some(Cpy(o.value.0, o.value.1, o.value.2, o.value.3)), o.next))
    case OpRef =>
      var o :- ReadMoveOperands(t, buf, pos);
      Ok(Parsed(Some(Ref(o.value.0, o.value.1, o.value.2, o.value.3)), o.next))
    case OpStackPush =>
      var o :- ReadRegWithRef(t, buf, pos);
      Ok(Parsed(Some(StackPush(o.value.0, o.value.1)), o.next))
    case OpStackMov =>
      var o :- ReadRegWithRef(t, buf, pos);
      Ok(Parsed(Some(StackMov(o.value.0, o.value.1)), o.next))
    case OpStackPop => Ok(Parsed(Some(StackPop), pos))
    case OpAdd =>
      var o :- ReadThreeRegs(t, buf, pos);
      Ok(Parsed(Some(Add(o.value.0, o.value.1, o.value.2)), o.next))
    case OpSub =>
      var o :- ReadThreeRegs(t, buf, pos);
      Ok(Parsed(Some(Sub(o.value.0, o.value.1, o.value.2)), o.next))
    case OpMul =>
      var o :- ReadThreeRegs(t, buf, pos);
      Ok(Parsed(Some(Mul(o.value.0, o.value.1, o.value.2)), o.next))
    case OpDiv =>
      var o :- ReadThreeRegs(t, buf, pos);
      Ok(Parsed(Some(Div(o.value.0, o.value.1, o.value.2)), o.next))
    case OpMod =>
      var o :- ReadThreeRegs(t, buf, pos);
      Ok(Parsed(Some(Mod(o.value.0, o.value.1, o.value.2)), o.next))
    case OpEqual =>
      var o :- ReadTwoRegs(t, buf, pos); Ok(Parsed(Some(Equal(o.value.0, o.value.1)), o.next))
    case OpNotEqual =>
      var o :- ReadTwoRegs(t, buf, pos); Ok(Parsed(Some(NotEqual(o.value.0, o.value.1)), o.next))
    case OpGreater =>
      var o :- ReadTwoRegs(t, buf, pos); Ok(Parsed(Some(Greater(o.value.0, o.value.1)), o.next))
    case OpLess =>
      var o :- ReadTwoRegs(t, buf, pos); Ok(Parsed(Some(Less(o.value.0, o.value.1)), o.next))
    case OpGreaterEqual =>
      var o :- ReadTwoRegs(t, buf, pos);
      Ok(Parsed(Some(GreaterEqual(o.value.0, o.value.1)), o.next))
    case OpLessEqual =>
      var o :- ReadTwoRegs(t, buf, pos);
      Ok(Parsed(Some(LessEqual(o.value.0, o.value.1)), o.next))
  }

  /** One pass of the instruction loop: the opcode byte selects an arm; no arm is an error. */
  function ReadInstruction(t: RegTags, arms: Arms, buf: Bytes, pos: nat)
    : (r: Read<Option<Instruction>>)
    requires pos <= |buf|
    ensures r.Ok? ==> pos < r.value.next <= |buf|
    ensures r.Ok? ==> pos < |buf| && FindOp(arms, buf[pos]).Some?
    ensures pos < |buf| && FindOp(arms, buf[pos]).None? ==> r == Err(BadOpcode(buf[pos]))
  {
    var b :- ReadU8(buf, pos);
    match FindOp(arms, b.value)
    case None => Err(BadOpcode(b.value))
    case Some(op) => ReadOperands(t, op, buf, b.next)
  }

  /** The instruction loop from pos to the end of the buffer, acc holding what was decoded so far. */
  function ReadInstrs(t: RegTags, arms: Arms, buf: Bytes, pos: nat, acc: seq<Instruction>)
    : (r: Result<seq<Instruction>, CodecError>)
    requires pos <= |buf|
    ensures r.Ok? ==> |r.value| >= |acc| && r.value[..|acc|] == acc
    decreases |buf| - pos
  {
    if pos == |buf| then Ok(acc)
    else
      var i :- ReadInstruction(t, arms, buf, pos);
      ReadInstrs(t, arms, buf, i.next, if i.value.Some? then acc + [i.value.value] else acc)
  }

  // ---------------------------------------------------------------------------
  // Header and tables (codereader.rs:153-207).

  /** Majors 1 to 6 predate the minor version field. */
  predicate HasMinor(major: u16) {
    !(1 <= major <= 6)
  }

  function ReadMinor(major: u16, buf: Bytes, pos: nat): (r: Read<u16>)
    ensures !HasMinor(major) ==> r == Ok(Parsed(0, pos))
    ensures HasMinor(major) ==> r == ReadU16(buf, pos)
  {
    if HasMinor(major) then ReadU16(buf, pos) else Ok(Parsed(0, pos))
  }

  /** The buffer opens with the format's magic number. */
  predicate MagicAt(fmt: Format, buf: Bytes) {
    |buf| >= 4 && FromBE(buf[..4]) == fmt.magic
  }

  /** The magic number and the version; yields the position of the constant pool count. */
  function ReadHeader(fmt: Format, buf: Bytes): (r: Read<()>)
    ensures r.Ok? ==> r.value.next <= |buf|
    ensures r.Ok? ==> MagicAt(fmt, buf)
  {
    var m :- ReadU32(buf, 0);
    if m.value != fmt.magic then Err(MissingHeader)
    else
      var major :- ReadU16(buf, m.next);
      var minor :- ReadMinor(major.value, buf, major.next);
      if major.value != fmt.verMajor || minor.value > fmt.verMinor then
        Err(UnsupportedVersion(major.value, minor.value))
      else
        Ok(Parsed((), minor.next))
  }

  function ReadImports(buf: Bytes, pos: nat, count: nat, acc: seq<Str>): (r: Read<seq<Str>>)
    requires pos <= |buf|
    ensures r.Ok? ==> pos <= r.value.next <= |buf| && |r.value.value| == |acc| + count
    decreases count
  {
    if count == 0 then Ok(Parsed(acc, pos))
    else
      var s :- ReadString(buf, pos);
      ReadImports(buf, s.next, count - 1, acc + [s.value])
  }

  /** The exports loop inserts each (name, position) pair, a later name overwriting an earlier one. */
  function ReadExports(buf: Bytes, pos: nat, count: nat, acc: map<Str, u64>)
    : (r: Read<map<Str, u64>>)
    requires pos <= |buf|
    ensures r.Ok? ==> pos <= r.value.next <= |buf| && acc.Keys <= r.value.value.Keys
    decreases count
  {
    if count == 0 then Ok(Parsed(acc, pos))
    else
      var name :- ReadString(buf, pos);
      var at :- ReadU64(buf, name.next);
      ReadExports(buf, at.next, count - 1, acc[name.value := at.value])
  }

  function Wrap(s: seq<Instruction>): (r: seq<Option<Instruction>>)
    ensures |r| == |s| && forall k :: 0 <= k < |s| ==> r[k] == Some(s[k])
  {
    seq(|s|, k requires 0 <= k < |s| => Some(s[k]))
  }

  /** The constant pool: a u32 count, then the constants. */
  function ReadPool(fmt: Format, buf: Bytes, pos: nat): (r: Read<seq<Constant>>)
    ensures r.Ok? ==> pos <= r.value.next <= |buf|
  {
    var n :- ReadU32(buf, pos);
    ReadConstants(fmt, buf, n.next, n.value, [])
  }

  /** The import table: a u64 count, then the names. */
  function ReadImportTable(buf: Bytes, pos: nat): (r: Read<seq<Str>>)
    ensures r.Ok? ==> pos <= r.value.next <= |buf|
  {
    var n :- ReadU64(buf, pos);
    ReadImports(buf, n.next, n.value, [])
  }

  /** The export table: a u64 count, then the (name, position) pairs. */
  function ReadExportTable(buf: Bytes, pos: nat): (r: Read<map<Str, u64>>)
    ensures r.Ok? ==> pos <= r.value.next <= |buf|
  {
    var n :- ReadU64(buf, pos);
    ReadExports(buf, n.next, n.value, map[])
  }

  /** Everything after the header, with the instruction match given by its arms. */
  function ReadBody(fmt: Format, arms: Arms, buf: Bytes, pos: nat): (r: Result<CodeHolder, CodecError>)
    requires pos <= |buf|
    ensures r.Ok? ==> forall k :: 0 <= k < |r.value.instructions| ==> r.value.instructions[k].Some?
  {
    var pool :- ReadPool(fmt, buf, pos);
    var imports :- ReadImportTable(buf, pool.next);
    var exports :- ReadExportTable(buf, imports.next);
    var instrs :- ReadInstrs(fmt.regs, arms, buf, exports.next, []);
    Ok(CodeHolder(pool.value, imports.value, exports.value, Wrap(instrs)))
  }

  /** read_bytecode. */
  function ReadBytecode(fmt: Format, buf: Bytes): (r: Result<CodeHolder, CodecError>)
    ensures r.Ok? ==> MagicAt(fmt, buf)
  {
    var h :- ReadHeader(fmt, buf);
    ReadBody(fmt, ReaderArms(fmt), buf, h.next)
  }

  // ---------------------------------------------------------------------------
  // Encoders (codewriter.rs).

  /** write_string: the byte length as a u64 (`len() as u64`), then the bytes. */
  function EncodeString(s: Str): (e: Bytes)
    ensures |e| == 8 + |s| && e[8..] == s
  {
    ToBE(|s| % U64_LIMIT, 8) + s
  }

  function EncodeRegLoc(t: RegTags, l: RegisterLocation): u8 {
    match l
    case ConstantPool => t.locConstant
    case Accumulator => t.locAccumulator
    case Global => t.locGlobal
    case Local => t.locLocal
  }

  function EncodeRegister(t: RegTags, r: Register): (e: Bytes)
    ensures |e| == 5
  {
    ToBE(r.index, 4) + [EncodeRegLoc(t, r.loc)]
  }

  function EncodeRegRef(t: RegTags, rr: RegisterReference): u8 {
    match rr
    case AsIs => t.refAsIs
    case Dereference => t.refDereference
  }

  /** write_constant as written: a Vec is its tag and its elements, with no count. */
  function EncodeConstant(fmt: Format, c: Constant): (e: Bytes)
    ensures |e| >= 1
    decreases c, 1
  {
    var ct := fmt.consts;
    match c
    case Int(v) => [ct.tagInt] + ToBE(I64Bits(v), 8)
    case Double(bits) => [ct.tagDouble] + ToBE(bits, 8)
    case String(s) => [ct.tagString] + EncodeString(s)
    case Boolean(b) => [ct.tagBoolean] + [if b then 1 else 0]
    case Address(r) => [ct.tagAddress] + EncodeRegister(fmt.regs, r)
    case Vec(elems) => [ct.tagVec] + EncodeConstants(fmt, elems)
  }

  function EncodeConstants(fmt: Format, cs: seq<Constant>): Bytes
    decreases cs, 0
  {
    if cs == [] then [] else EncodeConstant(fmt, cs[0]) + EncodeConstants(fmt, cs[1..])
  }

  /** The operands the writer emits after the opcode byte, in declaration order. */
  function EncodeOperands(t: RegTags, i: Instruction): Bytes {
    match i
    case Alloc(n) => ToBE(n, 4)
    case FrameAlloc(n, l) => ToBE(n, 4) + [EncodeRegLoc(t, l)]
    case Free(n) => ToBE(n, 4)
    case FrameFree(n, l) => ToBE(n, 4) + [EncodeRegLoc(t, l)]
    case Jump(k) => ToBE(I64Bits(k), 8)
    case Call(a) => ToBE(a, 8)
    case ExtCall(id) => ToBE(id, 8)
    case Ret => []
    case Mov(a, ar, b, br) => EncodeMoveOperands(t, a, ar, b, br)
    case Cpy(a, ar, b, br) => EncodeMoveOperands(t, a, ar, b, br)
    case Ref(a, ar, b, br) => EncodeMoveOperands(t, a, ar, b, br)
    case StackPush(r, rr) => EncodeRegister(t, r) + [EncodeRegRef(t, rr)]
    case StackPop => []
    case StackMov(r, rr) => EncodeRegister(t, r) + [EncodeRegRef(t, rr)]
    case Add(a, b, c) => EncodeRegister(t, a) + EncodeRegister(t, b) + EncodeRegister(t, c)
    case Sub(a, b, c) => EncodeRegister(t, a) + EncodeRegister(t, b) + EncodeRegister(t, c)
    case Mul(a, b, c) => EncodeRegister(t, a) + EncodeRegister(t, b) + EncodeRegister(t, c)
    case Div(a, b, c) => EncodeRegister(t, a) + EncodeRegister(t, b) + EncodeRegister(t, c)
    case Mod(a, b, c) => EncodeRegister(t, a) + EncodeRegister(t, b) + EncodeRegister(t, c)
    case Equal(a, b) => EncodeRegister(t, a) + EncodeRegister(t, b)
    case NotEqual(a, b) => EncodeRegister(t, a) + EncodeRegister(t, b)
    case Greater(a, b) => EncodeRegister(t, a) + EncodeRegister(t, b)
    case Less(a, b) => EncodeRegister(t, a) + EncodeRegister(t, b)
    case GreaterEqual(a, b) => EncodeRegister(t, a) + EncodeRegister(t, b)
    case LessEqual(a, b) => EncodeRegister(t, a) + EncodeRegister(t, b)
  }

  function EncodeMoveOperands(t: RegTags, a: Register, ar: RegisterReference,
                              b: Register, br: RegisterReference): Bytes
  {
    EncodeRegister(t, a) + [EncodeRegRef(t, ar)] + EncodeRegister(t, b) + [EncodeRegRef(t, br)]
  }

  function EncodeInstruction(fmt: Format, i: Instruction): (e: Bytes)
    ensures |e| >= 1 && e[0] == fmt.code(OpcodeOf(i))
  {
    [fmt.code(OpcodeOf(i))] + EncodeOperands(fmt.regs, i)
  }

  predicate AllSome(instrs: seq<Option<Instruction>>) {
    forall k :: 0 <= k < |instrs| ==> instrs[k].Some?
  }

  /** The instruction stream; a None slot makes the writer panic, hence the precondition. */
  function EncodeInstructions(fmt: Format, instrs: seq<Option<Instruction>>): Bytes
    requires AllSome(instrs)
  {
    if instrs == [] then [] else EncodeInstruction(fmt, instrs[0].value) + EncodeInstructions(fmt, instrs[1..])
  }

  function EncodeImports(imports: seq<Str>): Bytes {
    if imports == [] then [] else EncodeString(imports[0]) + EncodeImports(imports[1..])
  }

  /** `order` is the order in which the HashMap yields its entries, which the
      model does not fix: any enumeration of the keys without repetition. */
  predicate Enumerates(order: seq<Str>, keys: set<Str>) {
    (forall k :: 0 <= k < |order| ==> order[k] in keys) &&
    (forall k :: k in keys ==> k in order) &&
    (forall j, k :: 0 <= j < k < |order| ==> order[j] != order[k])
  }

  function EncodeExports(exports: map<Str, u64>, order: seq<Str>): Bytes
    requires forall k :: 0 <= k < |order| ==> order[k] in exports
  {
    if order == [] then []
    else EncodeString(order[0]) + ToBE(exports[order[0]], 8) + EncodeExports(exports, order[1..])
  }

  function EncodeHeader(fmt: Format): (e: Bytes)
    ensures |e| == 8
  {
    ToBE(fmt.magic, 4) + ToBE(fmt.verMajor, 2) + ToBE(fmt.verMinor, 2)
  }

  /** The constant pool: its count truncated as `len() as u32` truncates, then the constants. */
  function EncodePool(fmt: Format, pool: seq<Constant>): Bytes {
    ToBE(|pool| % U32_LIMIT, 4) + EncodeConstants(fmt, pool)
  }

  /** The import table: its count as a u64, then the names. */
  function EncodeImportTable(imports: seq<Str>): Bytes {
    ToBE(|imports| % U64_LIMIT, 8) + EncodeImports(imports)
  }

  /** The export table: its count as a u64, then the entries in the given order. */
  function EncodeExportTable(exports: map<Str, u64>, order: seq<Str>): Bytes
    requires Enumerates(order, exports.Keys)
  {
    ToBE(|exports| % U64_LIMIT, 8) + EncodeExports(exports, order)
  }

  /** Everything after the header. */
  function EncodeBody(fmt: Format, h: CodeHolder, order: seq<Str>): Bytes
    requires AllSome(h.instructions)
    requires Enumerates(order, h.exports.Keys)
  {
    EncodePool(fmt, h.constantPool) + EncodeImportTable(h.imports)
    + EncodeExportTable(h.exports, order) + EncodeInstructions(fmt, h.instructions)
  }

  /** write_bytecode. */
  function EncodeBytecode(fmt: Format, h: CodeHolder, order: seq<Str>): Bytes
    requires AllSome(h.instructions)
    requires Enumerates(order, h.exports.Keys)
  {
    EncodeHeader(fmt) + EncodeBody(fmt, h, order)
  }
}
