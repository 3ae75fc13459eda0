/** The reader of src/bytecode/codereader.rs in the form the source gives it: a
    cursor over the buffer whose position advances field by field, and loops
    that push what they decode. Every method is proved to agree with the reader
    function of the same name in codec.dfy: on success it returns that
    function's value and leaves the cursor where the function says the next
    field starts; on failure it returns the same error. */
module CodeReader {
  import opened Types
  import opened Primitives
  import opened Format
  import Codec
  import CodecRoundTrip

  /** A result r with cursor position pos agrees with the functional read e. */
  predicate Agrees<T(==)>(r: Result<T, Codec.CodecError>, e: Codec.Read<T>, pos: nat) {
    match e
    case Ok(p) => r == Ok(p.value) && pos == p.next
    case Err(x) => r == Err(x)
  }

  /** `std::io::Cursor<&Vec<u8>>` with byteorder's big-endian readers. */
  class Cursor {
    const buf: Bytes
    var pos: nat

    predicate Valid()
      reads this
    {
      pos <= |buf|
    }

    constructor (buf: Bytes)
      ensures this.buf == buf && pos == 0 && Valid()
    {
      this.buf := buf;
      pos := 0;
    }

    /** `read_exact` into an n-byte buffer. */
    method ReadExact(n: nat) returns (r: Result<Bytes, Codec.CodecError>)
      requires Valid()
      modifies this
      ensures Valid() && Agrees(r, Codec.ReadN(buf, old(pos), n), pos)
    {
      if pos + n <= |buf| {
        r := Ok(buf[pos..pos + n]);
        pos := pos + n;
      } else {
        r := Err(Codec.UnexpectedEof);
      }
    }

    method ReadU8() returns (r: Result<u8, Codec.CodecError>)
      requires Valid()
      modifies this
      ensures Valid() && Agrees(r, Codec.ReadU8(buf, old(pos)), pos)
    {
      if pos < |buf| {
        r := Ok(buf[pos]);
        pos := pos + 1;
      } else {
        r := Err(Codec.UnexpectedEof);
      }
    }

    method ReadU16() returns (r: Result<u16, Codec.CodecError>)
      requires Valid()
      modifies this
      ensures Valid() && Agrees(r, Codec.ReadU16(buf, old(pos)), pos)
    {
      var s :- ReadExact(2);
      FromBEBound(s);
      Pow256Values();
      return Ok(FromBE(s));
    }

    method ReadU32() returns (r: Result<u32, Codec.CodecError>)
      requires Valid()
      modifies this
      ensures Valid() && Agrees(r, Codec.ReadU32(buf, old(pos)), pos)
    {
      var s :- ReadExact(4);
      FromBEBound(s);
      Pow256Values();
      return Ok(FromBE(s));
    }

    method ReadU64() returns (r: Result<u64, Codec.CodecError>)
      requires Valid()
      modifies this
      ensures Valid() && Agrees(r, Codec.ReadU64(buf, old(pos)), pos)
    {
      var s :- ReadExact(8);
      FromBEBound(s);
      Pow256Values();
      return Ok(FromBE(s));
    }

    method ReadI64() returns (r: Result<i64, Codec.CodecError>)
      requires Valid()
      modifies this
      ensures Valid() && Agrees(r, Codec.ReadI64(buf, old(pos)), pos)
    {
      var u :- ReadU64();
      return Ok(BitsI64(u));
    }
  }

  /** read_string (codereader.rs:20-35). */
  method ReadString(cur: Cursor) returns (r: Result<Str, Codec.CodecError>)
    requires cur.Valid()
    modifies cur
    ensures cur.Valid() && Agrees(r, Codec.ReadString(cur.buf, old(cur.pos)), cur.pos)
  {
    var length :- cur.ReadU64();
    var data :- cur.ReadExact(length);
    if !ValidUtf8(data) {
      return Err(Codec.BadUtf8);
    }
    return Ok(data);
  }

  /** read_reg_loc (codereader.rs:47-67). */
  method ReadRegLoc(cur: Cursor, t: RegTags) returns (r: Result<RegisterLocation, Codec.CodecError>)
    requires cur.Valid()
    modifies cur
    ensures cur.Valid() && Agrees(r, Codec.ReadRegLoc(t, cur.buf, old(cur.pos)), cur.pos)
  {
    var b :- cur.ReadU8();
    if b == t.locConstant {
      return Ok(ConstantPool);
    } else if b == t.locAccumulator {
      return Ok(Accumulator);
    } else if b == t.locGlobal {
      return Ok(Global);
    } else if b == t.locLocal {
      return Ok(Local);
    }
    return Err(Codec.BadLocation(b));
  }

  /** read_register (codereader.rs:38-44). */
  method ReadRegister(cur: Cursor, t: RegTags) returns (r: Result<Register, Codec.CodecError>)
    requires cur.Valid()
    modifies cur
    ensures cur.Valid() && Agrees(r, Codec.ReadRegister(t, cur.buf, old(cur.pos)), cur.pos)
  {
    var index :- cur.ReadU32();
    var loc :- ReadRegLoc(cur, t);
    return Ok(Register(index, loc));
  }

  /** read_reg_ref (codereader.rs:70-89). */
  method ReadRegRef(cur: Cursor, t: RegTags) returns (r: Result<RegisterReference, Codec.CodecError>)
    requires cur.Valid()
    modifies cur
    ensures cur.Valid() && Agrees(r, Codec.ReadRegRef(t, cur.buf, old(cur.pos)), cur.pos)
  {
    var b :- cur.ReadU8();
    if b == t.refAsIs {
      return Ok(AsIs);
    } else if b == t.refDereference {
      return Ok(Dereference);
    }
    return Err(Codec.BadReference(b));
  }

  /** read_constant (codereader.rs:91-138); a Vec reads its u8 count and then
      its elements by recursion. */
  method ReadConstant(cur: Cursor, fmt: Format) returns (r: Result<Constant, Codec.CodecError>)
    requires cur.Valid()
    modifies cur
    ensures cur.Valid() && Agrees(r, Codec.ReadConstant(fmt, cur.buf, old(cur.pos)), cur.pos)
    decreases |cur.buf| - cur.pos, 0
  {
    var tag :- cur.ReadU8();
    var ct := fmt.consts;
    if tag == ct.tagInt {
      var v :- cur.ReadI64();
      return Ok(Int(v));
    } else if tag == ct.tagDouble {
      var v :- cur.ReadU64();
      return Ok(Double(v));
    } else if tag == ct.tagString {
      var s :- ReadString(cur);
      return Ok(String(s));
    } else if tag == ct.tagBoolean {
      var v :- cur.ReadU8();
      return Ok(Boolean(v != 0));
    } else if tag == ct.tagAddress {
      var a :- ReadRegister(cur, fmt.regs);
      return Ok(Address(a));
    } else if tag == ct.tagVec {
      var n :- cur.ReadU8();
      var elems :- ReadElements(cur, fmt, n);
      return Ok(Vec(elems));
    }
    return Err(Codec.BadConstantTag(tag));
  }

  /** `count` constants pushed in order: the loop of the Vec arm and of the
      constant pool. */
  method ReadElements(cur: Cursor, fmt: Format, count: nat) returns (r: Result<seq<Constant>, Codec.CodecError>)
    requires cur.Valid()
    modifies cur
    ensures cur.Valid() && Agrees(r, Codec.ReadConstants(fmt, cur.buf, old(cur.pos), count, []), cur.pos)
    decreases |cur.buf| - cur.pos, 2
  {
    ghost var p0 := cur.pos;
    var elems: seq<Constant> := [];
    var i := 0;
    while i < count
      invariant cur.Valid() && i <= count && p0 <= cur.pos
      invariant Codec.ReadConstants(fmt, cur.buf, p0, count, [])
             == Codec.ReadConstants(fmt, cur.buf, cur.pos, count - i, elems)
    {
      var c :- ReadConstant(cur, fmt);
      elems := elems + [c];
      i := i + 1;
    }
    return Ok(elems);
  }

  /** The operands after an opcode byte, one arm per opcode of the reader's match
      (codereader.rs:210-391), grouped here by the shape of the operands; NOOP
      reads nothing and yields no instruction. */
  method ReadOperands(cur: Cursor, t: RegTags, op: Opcode) returns (r: Result<Option<Instruction>, Codec.CodecError>)
    requires cur.Valid()
    modifies cur
    ensures cur.Valid() && Agrees(r, Codec.ReadOperands(t, op, cur.buf, old(cur.pos)), cur.pos)
  {
    if op == OpNoop {
      r := Ok(None);
    } else if op == OpRet {
      r := Ok(Some(Ret));
    } else if op == OpStackPop {
      r := Ok(Some(StackPop));
    } else if op == OpAlloc || op == OpFree || op == OpFrameAlloc || op == OpFrameFree {
      r := ReadSizeOperands(cur, t, op);
    } else if op == OpJump || op == OpCall || op == OpExtCall {
      r := ReadWordOperand(cur, t, op);
    } else if op == OpMov || op == OpCpy || op == OpRef || op == OpStackPush || op == OpStackMov {
      r := ReadTransferOperands(cur, t, op);
    } else if op == OpAdd || op == OpSub || op == OpMul || op == OpDiv || op == OpMod {
      r := ReadArithOperands(cur, t, op);
    } else {
      r := ReadComparisonOperands(cur, t, op);
    }
  }

  /** Alloc, Free, FrameAlloc and FrameFree: a u32 size, and for the frame
      instructions a location byte. */
  method ReadSizeOperands(cur: Cursor, t: RegTags, op: Opcode) returns (r: Result<Option<Instruction>, Codec.CodecError>)
    requires cur.Valid() && (op == OpAlloc || op == OpFree || op == OpFrameAlloc || op == OpFrameFree)
    modifies cur
    ensures cur.Valid() && Agrees(r, Codec.ReadOperands(t, op, cur.buf, old(cur.pos)), cur.pos)
  {
    var size :- cur.ReadU32();
    if op == OpAlloc {
      return Ok(Some(Alloc(size)));
    } else if op == OpFree {
      return Ok(Some(Free(size)));
    }
    var loc :- ReadRegLoc(cur, t);
    if op == OpFrameAlloc {
      return Ok(Some(FrameAlloc(size, loc)));
    }
    return Ok(Some(FrameFree(size, loc)));
  }

  /** Jump (an i64 offset), Call (a u64 address) and ExtCall (a u64 id). */
  method ReadWordOperand(cur: Cursor, t: RegTags, op: Opcode) returns (r: Result<Option<Instruction>, Codec.CodecError>)
    requires cur.Valid() && (op == OpJump || op == OpCall || op == OpExtCall)
    modifies cur
    ensures cur.Valid() && Agrees(r, Codec.ReadOperands(t, op, cur.buf, old(cur.pos)), cur.pos)
  {
    if op == OpJump {
      var offset :- cur.ReadI64();
      return Ok(Some(Jump(offset)));
    } else if op == OpCall {
      var addr :- cur.ReadU64();
      return Ok(Some(Call(addr)));
    }
    var id :- cur.ReadU64();
    return Ok(Some(ExtCall(id)));
  }

  /** Mov, Cpy and Ref (register, reference, register, reference), StackPush and
      StackMov (register, reference). */
  method ReadTransferOperands(cur: Cursor, t: RegTags, op: Opcode) returns (r: Result<Option<Instruction>, Codec.CodecError>)
    requires cur.Valid()
    requires op == OpMov || op == OpCpy || op == OpRef || op == OpStackPush || op == OpStackMov
    modifies cur
    ensures cur.Valid() && Agrees(r, Codec.ReadOperands(t, op, cur.buf, old(cur.pos)), cur.pos)
  {
    var ra :- ReadRegister(cur, t);
    var aref :- ReadRegRef(cur, t);
    if op == OpStackPush {
      return Ok(Some(StackPush(ra, aref)));
    } else if op == OpStackMov {
      return Ok(Some(StackMov(ra, aref)));
    }
    var rb :- ReadRegister(cur, t);
    var bref :- ReadRegRef(cur, t);
    if op == OpMov {
      return Ok(Some(Mov(ra, aref, rb, bref)));
    } else if op == OpCpy {
      return Ok(Some(Cpy(ra, aref, rb, bref)));
    }
    return Ok(Some(Ref(ra, aref, rb, bref)));
  }

  /** Add, Sub, Mul, Div and Mod: three registers. */
  method ReadArithOperands(cur: Cursor, t: RegTags, op: Opcode) returns (r: Result<Option<Instruction>, Codec.CodecError>)
    requires cur.Valid() && (op == OpAdd || op == OpSub || op == OpMul || op == OpDiv || op == OpMod)
    modifies cur
    ensures cur.Valid() && Agrees(r, Codec.ReadOperands(t, op, cur.buf, old(cur.pos)), cur.pos)
  {
    var ra :- ReadRegister(cur, t);
    var rb :- ReadRegister(cur, t);
    var rc :- ReadRegister(cur, t);
    if op == OpAdd {
      return Ok(Some(Add(ra, rb, rc)));
    } else if op == OpSub {
      return Ok(Some(Sub(ra, rb, rc)));
    } else if op == OpMul {
      return Ok(Some(Mul(ra, rb, rc)));
    } else if op == OpDiv {
      return Ok(Some(Div(ra, rb, rc)));
    }
    return Ok(Some(Mod(ra, rb, rc)));
  }

  /** The six comparisons: two registers. */
  method ReadComparisonOperands(cur: Cursor, t: RegTags, op: Opcode) returns (r: Result<Option<Instruction>, Codec.CodecError>)
    requires cur.Valid()
    requires op == OpEqual || op == OpNotEqual || op == OpGreater || op == OpLess
          || op == OpGreaterEqual || op == OpLessEqual
    modifies cur
    ensures cur.Valid() && Agrees(r, Codec.ReadOperands(t, op, cur.buf, old(cur.pos)), cur.pos)
  {
    var ra :- ReadRegister(cur, t);
    var rb :- ReadRegister(cur, t);
    if op == OpEqual {
      return Ok(Some(Equal(ra, rb)));
    } else if op == OpNotEqual {
      return Ok(Some(NotEqual(ra, rb)));
    } else if op == OpGreater {
      return Ok(Some(Greater(ra, rb)));
    } else if op == OpLess {
      return Ok(Some(Less(ra, rb)));
    } else if op == OpGreaterEqual {
      return Ok(Some(GreaterEqual(ra, rb)));
    }
    return Ok(Some(LessEqual(ra, rb)));
  }

  /** One pass of the instruction loop: the opcode byte, then the arm it selects;
      a byte no arm names is an error (codereader.rs:392-402). */
  method ReadInstruction(cur: Cursor, t: RegTags, arms: Arms) returns (r: Result<Option<Instruction>, Codec.CodecError>)
    requires cur.Valid()
    modifies cur
    ensures cur.Valid() && Agrees(r, Codec.ReadInstruction(t, arms, cur.buf, old(cur.pos)), cur.pos)
  {
    var b :- cur.ReadU8();
    match FindOp(arms, b)
    case None => return Err(Codec.BadOpcode(b));
    case Some(op) => r := ReadOperands(cur, t, op);
  }

  // ---------------------------------------------------------------------------
  // read_bytecode (codereader.rs:153-407), section by section.

  /** The constant pool: a u32 count, then the constants (codereader.rs:189-192). */
  method ReadPool(cur: Cursor, fmt: Format) returns (r: Result<seq<Constant>, Codec.CodecError>)
    requires cur.Valid()
    modifies cur
    ensures cur.Valid() && Agrees(r, Codec.ReadPool(fmt, cur.buf, old(cur.pos)), cur.pos)
  {
    var clen :- cur.ReadU32();
    r := ReadElements(cur, fmt, clen);
  }

  /** The import table: a u64 count, then the names (codereader.rs:195-199). */
  method ReadImportTable(cur: Cursor) returns (r: Result<seq<Str>, Codec.CodecError>)
    requires cur.Valid()
    modifies cur
    ensures cur.Valid() && Agrees(r, Codec.ReadImportTable(cur.buf, old(cur.pos)), cur.pos)
  {
    ghost var goal := Codec.ReadImportTable(cur.buf, cur.pos);
    var ilen :- cur.ReadU64();
    var imports: seq<Str> := [];
    var i := 0;
    ghost var left: nat := ilen;
    assert goal == Codec.ReadImports(cur.buf, cur.pos, left, imports);
    while i < ilen
      invariant cur.Valid() && i <= ilen && left == ilen - i
      invariant goal == Codec.ReadImports(cur.buf, cur.pos, left, imports)
    {
      ghost var here := cur.pos;
      var name :- ReadString(cur);
      CodecRoundTrip.ReadImportsUnfold(cur.buf, here, left, imports, name, cur.pos);
      imports := imports + [name];
      i := i + 1;
      left := left - 1;
    }
    return Ok(imports);
  }

  /** The export table: a u64 count, then (name, position) pairs inserted into
      the map, a repeated name keeping its last position (codereader.rs:202-207). */
  method ReadExportTable(cur: Cursor) returns (r: Result<map<Str, u64>, Codec.CodecError>)
    requires cur.Valid()
    modifies cur
    ensures cur.Valid() && Agrees(r, Codec.ReadExportTable(cur.buf, old(cur.pos)), cur.pos)
  {
    ghost var goal := Codec.ReadExportTable(cur.buf, cur.pos);
    var elen :- cur.ReadU64();
    var exports: map<Str, u64> := map[];
    var i := 0;
    ghost var left: nat := elen;
    assert goal == Codec.ReadExports(cur.buf, cur.pos, left, exports);
    while i < elen
      invariant cur.Valid() && i <= elen && left == elen - i
      invariant goal == Codec.ReadExports(cur.buf, cur.pos, left, exports)
    {
      ghost var here := cur.pos;
      var name :- ReadString(cur);
      ghost var mid := cur.pos;
      var at :- cur.ReadU64();
      CodecRoundTrip.ReadExportsUnfold(cur.buf, here, left, exports, name, mid, at, cur.pos);
      exports := exports[name := at];
      left := left - 1;
      i := i + 1;
    }
    return Ok(exports);
  }

  /** The instruction loop: until the cursor reaches the end of the buffer, each
      decoded instruction is pushed as `Some` (codereader.rs:210-404). */
  method ReadInstructions(cur: Cursor, t: RegTags, arms: Arms) returns (r: Result<seq<Option<Instruction>>, Codec.CodecError>)
    requires cur.Valid()
    modifies cur
    ensures match Codec.ReadInstrs(t, arms, cur.buf, old(cur.pos), [])
            case Ok(s) => r == Ok(Codec.Wrap(s))
            case Err(e) => r == Err(e)
  {
    ghost var p0 := cur.pos;
    ghost var acc: seq<Instruction> := [];
    var instrs: seq<Option<Instruction>> := [];
    while cur.pos != |cur.buf|
      invariant cur.Valid() && instrs == Codec.Wrap(acc)
      invariant Codec.ReadInstrs(t, arms, cur.buf, p0, [])
             == Codec.ReadInstrs(t, arms, cur.buf, cur.pos, acc)
      decreases |cur.buf| - cur.pos
    {
      var i :- ReadInstruction(cur, t, arms);
      if i.Some? {
        acc := acc + [i.value];
        instrs := instrs + [Some(i.value)];
      }
    }
    return Ok(instrs);
  }

  /** The magic number, then the version: majors 1 to 6 carry no minor
      (codereader.rs:161-186). */
  method ReadHeader(cur: Cursor, fmt: Format) returns (r: Result<(), Codec.CodecError>)
    requires cur.Valid() && cur.pos == 0
    modifies cur
    ensures cur.Valid() && Agrees(r, Codec.ReadHeader(fmt, cur.buf), cur.pos)
  {
    var magic :- cur.ReadU32();
    if magic != fmt.magic {
      return Err(Codec.MissingHeader);
    }
    var major :- cur.ReadU16();
    var minor: u16 := 0;
    if Codec.HasMinor(major) {
      minor :- cur.ReadU16();
    }
    if major != fmt.verMajor || minor > fmt.verMinor {
      return Err(Codec.UnsupportedVersion(major, minor));
    }
    return Ok(());
  }

  /** read_bytecode (codereader.rs:153-407): the header, then the sections. */
  method ReadBytecode(fmt: Format, buf: Bytes) returns (r: Result<Codec.CodeHolder, Codec.CodecError>)
    ensures r == Codec.ReadBytecode(fmt, buf)
  {
    var cur := new Cursor(buf);
    var _ :- ReadHeader(cur, fmt);
    r := ReadBody(cur, fmt, ReaderArms(fmt));
  }

  /** The sections in order: the constant pool, the imports, the exports and the
      instructions, which run to the end of the buffer (codereader.rs:189-404). */
  method ReadBody(cur: Cursor, fmt: Format, arms: Arms) returns (r: Result<Codec.CodeHolder, Codec.CodecError>)
    requires cur.Valid()
    modifies cur
    ensures r == Codec.ReadBody(fmt, arms, cur.buf, old(cur.pos))
  {
    var pool :- ReadPool(cur, fmt);
    var imports :- ReadImportTable(cur);
    var exports :- ReadExportTable(cur);
    var instrs :- ReadInstructions(cur, fmt.regs, arms);
    return Ok(Codec.CodeHolder(pool, imports, exports, instrs));
  }
}
