/** The decoding rules of the older reader (src/api/codereader.rs) and what
    becomes of the older writer's output (src/api/codewriter.rs) when that
    reader reads it back: the round trip holds when the import table is empty,
    because its eight zero bytes read as NOOPs, and fails otherwise. */
module LegacyRoundTrip {
  import opened Types
  import opened Primitives
  import opened Format
  import opened LegacyFormat
  import opened LegacyCodec
  import Codec
  import RT = CodecRoundTrip

  // ---------------------------------------------------------------------------
  // Decoding rules.

  /** The header is accepted exactly when the first four bytes are MAGIC_NUMBER and
      the next two are VERSION; a wrong magic number is a missing header, and a
      wrong version is reported with the version read. */
  lemma HeaderRule(buf: Bytes)
    ensures ReadHeader(buf).Ok?
        <==> |buf| >= 6 && FromBE(buf[..4]) == MAGIC_NUMBER && FromBE(buf[4..6]) == VERSION
    ensures |buf| >= 4 && FromBE(buf[..4]) != MAGIC_NUMBER ==> ReadHeader(buf) == Err(Codec.MissingHeader)
    ensures |buf| >= 6 && FromBE(buf[..4]) == MAGIC_NUMBER && FromBE(buf[4..6]) != VERSION
        ==> ReadHeader(buf).Err? && ReadHeader(buf).error.UnsupportedVersion?
            && ReadHeader(buf).error.major == FromBE(buf[4..6])
  {
    if |buf| >= 4 {
      assert buf[0..4] == buf[..4];
    }
  }

  /** A boolean constant is false for a zero byte and true for any other. */
  lemma BooleanRule(buf: Bytes, pos: nat)
    requires pos + 2 <= |buf| && buf[pos] == CONST_BOOLEAN
    ensures ReadConstant(buf, pos) == Ok(Codec.Parsed(Boolean(buf[pos + 1] != 0x00), pos + 2))
  {
  }

  /** A tag byte that is none of the CONST_* values is an error naming that byte. */
  lemma UnknownConstantTag(buf: Bytes, pos: nat)
    requires pos < |buf| && buf[pos] !in CONST_TAGS
    ensures ReadConstant(buf, pos) == Err(Codec.BadConstantTag(buf[pos]))
  {
  }

  /** An opcode byte above INST_LESS_EQUAL stops the instruction loop with an error
      naming that byte, whatever follows it. */
  lemma UnknownOpcode(buf: Bytes, pos: nat, acc: seq<Instruction>)
    requires pos < |buf| && buf[pos] > INST_LESS_EQUAL
    ensures Codec.ReadInstrs(REGS, ARMS, buf, pos, acc) == Err(Codec.BadOpcode(buf[pos]))
  {
    KnownOpcodes(buf[pos]);
  }

  /** A run of zero bytes is a run of NOOPs: the loop reads past it and adds nothing. */
  lemma {:induction false} ReadNoops(arms: Arms, buf: Bytes, p: nat, q: nat, acc: seq<Instruction>)
    requires FindOp(arms, INST_NOOP) == Some(OpNoop)
    requires p <= q <= |buf| && forall k :: p <= k < q ==> buf[k] == INST_NOOP
    ensures Codec.ReadInstrs(REGS, arms, buf, p, acc) == Codec.ReadInstrs(REGS, arms, buf, q, acc)
    decreases q - p
  {
    if p < q {
      assert Codec.ReadInstruction(REGS, arms, buf, p) == Ok(Codec.Parsed(None, p + 1));
      ReadNoops(arms, buf, p + 1, q, acc);
    }
  }

  lemma NoopArm()
    ensures FindOp(ARMS, INST_NOOP) == Some(OpNoop)
  {
  }

  /** Every byte of the big-endian encoding of zero is zero. */
  lemma {:induction false} ZeroBytes(n: nat)
    ensures forall k :: 0 <= k < n ==> ToBE(0, n)[k] == 0
  {
    if n > 0 {
      ZeroBytes(n - 1);
      assert ToBE(0, n) == ToBE(0, n - 1) + [0];
    }
  }

  // ---------------------------------------------------------------------------
  // Constants.

  lemma ReadIntConstantAt(buf: Bytes, p: nat, c: Constant)
    requires c.Int? && RT.At(buf, p, EncodeConstant(c))
    ensures ReadConstant(buf, p) == Ok(Codec.Parsed(c, p + |EncodeConstant(c)|))
  {
    RT.AtSplit(buf, p, [CONST_INT], ToBE(I64Bits(c.i), 8));
    RT.ReadU8At(buf, p, CONST_INT);
    RT.ReadI64At(buf, p + 1, c.i);
  }

  lemma ReadDoubleConstantAt(buf: Bytes, p: nat, c: Constant)
    requires c.Double? && RT.At(buf, p, EncodeConstant(c))
    ensures ReadConstant(buf, p) == Ok(Codec.Parsed(c, p + |EncodeConstant(c)|))
  {
    RT.AtSplit(buf, p, [CONST_DOUBLE], ToBE(c.bits, 8));
    RT.ReadU8At(buf, p, CONST_DOUBLE);
    RT.ReadU64At(buf, p + 1, c.bits);
  }

  lemma ReadStringConstantAt(buf: Bytes, p: nat, c: Constant)
    requires c.String? && ValidStr(c.s) && RT.At(buf, p, EncodeConstant(c))
    ensures ReadConstant(buf, p) == Ok(Codec.Parsed(c, p + |EncodeConstant(c)|))
  {
    RT.AtSplit(buf, p, [CONST_STRING], Codec.EncodeString(c.s));
    RT.ReadU8At(buf, p, CONST_STRING);
    RT.ReadStringAt(buf, p + 1, c.s);
  }

  lemma ReadBooleanConstantAt(buf: Bytes, p: nat, c: Constant)
    requires c.Boolean? && RT.At(buf, p, EncodeConstant(c))
    ensures ReadConstant(buf, p) == Ok(Codec.Parsed(c, p + |EncodeConstant(c)|))
  {
    var v: u8 := if c.b then 0x01 else 0x00;
    RT.AtSplit(buf, p, [CONST_BOOLEAN], [v]);
    RT.ReadU8At(buf, p, CONST_BOOLEAN);
    RT.ReadU8At(buf, p + 1, v);
  }

  lemma ReadAddressConstantAt(buf: Bytes, p: nat, c: Constant)
    requires c.Address? && RT.At(buf, p, EncodeConstant(c))
    ensures ReadConstant(buf, p) == Ok(Codec.Parsed(c, p + |EncodeConstant(c)|))
  {
    RegsDistinct();
    RT.AtSplit(buf, p, [CONST_ADDRESS], Codec.EncodeRegister(REGS, c.reg));
    RT.ReadU8At(buf, p, CONST_ADDRESS);
    RT.ReadRegisterAt(REGS, buf, p + 1, c.reg);
  }

  /** A constant the reader accepts reads back from its encoding. */
  lemma ReadConstantAt(buf: Bytes, p: nat, c: Constant) returns (q: nat)
    requires RT.Encodable(c) && RT.At(buf, p, EncodeConstant(c))
    ensures q == p + |EncodeConstant(c)|
    ensures ReadConstant(buf, p) == Ok(Codec.Parsed(c, q))
  {
    q := p + |EncodeConstant(c)|;
    if c.Int? {
      ReadIntConstantAt(buf, p, c);
    } else if c.Double? {
      ReadDoubleConstantAt(buf, p, c);
    } else if c.String? {
      ReadStringConstantAt(buf, p, c);
    } else if c.Boolean? {
      ReadBooleanConstantAt(buf, p, c);
    } else {
      ReadAddressConstantAt(buf, p, c);
    }
  }

  lemma ReadConstantsUnfold(buf: Bytes, p: nat, count: nat, acc: seq<Constant>, c: Constant, q: nat)
    requires p <= |buf| && q <= |buf| && count > 0 && ReadConstant(buf, p) == Ok(Codec.Parsed(c, q))
    ensures ReadConstants(buf, p, count, acc) == ReadConstants(buf, q, count - 1, acc + [c])
  {
  }

  /** The first constant of an encoded pool at p reads back, and the rest follows at q. */
  lemma ReadConstantsCons(buf: Bytes, p: nat, cs: seq<Constant>, acc: seq<Constant>) returns (q: nat)
    requires NoVec(cs) && cs != [] && RT.Encodable(cs[0]) && RT.At(buf, p, EncodeConstants(cs))
    ensures NoVec(cs[1..]) && q <= |buf| && RT.At(buf, q, EncodeConstants(cs[1..]))
    ensures q + |EncodeConstants(cs[1..])| == p + |EncodeConstants(cs)|
    ensures ReadConstants(buf, p, |cs|, acc) == ReadConstants(buf, q, |cs[1..]|, acc + [cs[0]])
  {
    q := ConstantsLayout(buf, p, cs);
    var c := cs[0];
    var q' := ReadConstantAt(buf, p, c);
    assert q' == q;
    assert ReadConstant(buf, p) == Ok(Codec.Parsed(c, q));
    ReadConstantsUnfold(buf, p, |cs|, acc, c, q);
  }

  /** An encoded pool at p is its first constant's encoding, then the rest's from q. */
  lemma ConstantsLayout(buf: Bytes, p: nat, cs: seq<Constant>) returns (q: nat)
    requires NoVec(cs) && cs != [] && RT.At(buf, p, EncodeConstants(cs))
    ensures q == p + |EncodeConstant(cs[0])| && RT.At(buf, p, EncodeConstant(cs[0]))
    ensures NoVec(cs[1..]) && q <= |buf| && RT.At(buf, q, EncodeConstants(cs[1..]))
    ensures q + |EncodeConstants(cs[1..])| == p + |EncodeConstants(cs)|
  {
    var e1, e2 := EncodeConstant(cs[0]), EncodeConstants(cs[1..]);
    assert EncodeConstants(cs) == e1 + e2;
    q := SplitAt(buf, p, e1, e2);
  }

  /** Bytes at p that are e1 then e2: e1 is at p and e2 at the returned q. */
  lemma SplitAt(buf: Bytes, p: nat, e1: Bytes, e2: Bytes) returns (q: nat)
    requires RT.At(buf, p, e1 + e2)
    ensures q == p + |e1| && q + |e2| == p + |e1 + e2| <= |buf|
    ensures RT.At(buf, p, e1) && RT.At(buf, q, e2)
  {
    RT.AtSplit(buf, p, e1, e2);
    q := p + |e1|;
  }

  /** Joins the first constant's step to the reading of the rest. */
  lemma ReadConstantsAtStep(x: Codec.Read<seq<Constant>>, y: Codec.Read<seq<Constant>>,
                            cs: seq<Constant>, rest: seq<Constant>, acc: seq<Constant>,
                            acc': seq<Constant>, n1: nat, n2: nat)
    requires cs != [] && rest == cs[1..] && acc' == acc + [cs[0]]
    requires x == y && y == Ok(Codec.Parsed(acc' + rest, n1)) && n1 == n2
    ensures x == Ok(Codec.Parsed(acc + cs, n2))
  {
    RT.AppendCons(acc, cs);
  }

  lemma {:induction false} ReadConstantsAt(buf: Bytes, p: nat, cs: seq<Constant>, acc: seq<Constant>)
    requires NoVec(cs) && (forall k :: 0 <= k < |cs| ==> RT.Encodable(cs[k]))
    requires RT.At(buf, p, EncodeConstants(cs))
    ensures ReadConstants(buf, p, |cs|, acc) == Ok(Codec.Parsed(acc + cs, p + |EncodeConstants(cs)|))
    decreases cs
  {
    if cs == [] {
      assert acc + cs == acc;
    } else {
      var q := ReadConstantsCons(buf, p, cs, acc);
      var rest, acc' := cs[1..], acc + [cs[0]];
      ReadConstantsAt(buf, q, rest, acc');
      ReadConstantsAtStep(ReadConstants(buf, p, |cs|, acc), ReadConstants(buf, q, |rest|, acc'),
                          cs, rest, acc, acc', q + |EncodeConstants(rest)|, p + |EncodeConstants(cs)|);
    }
  }

  lemma ReadPoolUnfold(buf: Bytes, p: nat, n: nat)
    requires Codec.ReadU32(buf, p) == Ok(Codec.Parsed(n, p + 4))
    ensures p + 4 <= |buf| && ReadPool(buf, p) == ReadConstants(buf, p + 4, n, [])
  {
  }

  /** A read into an empty accumulator yields just what was read. */
  lemma StartEmpty(x: Codec.Read<seq<Constant>>, pool: seq<Constant>, acc: seq<Constant>, n: nat)
    requires acc == [] && x.Ok? && x.value.value == acc + pool && x.value.next == n
    ensures x == Ok(Codec.Parsed(pool, n))
  {
    assert acc + pool == pool;
  }

  /** The constants of a pool, read from an empty accumulator. */
  lemma ReadPoolConstantsAt(buf: Bytes, p: nat, pool: seq<Constant>) returns (q: nat)
    requires NoVec(pool) && (forall k :: 0 <= k < |pool| ==> RT.Encodable(pool[k]))
    requires RT.At(buf, p, EncodeConstants(pool))
    ensures q == p + |EncodeConstants(pool)| && q <= |buf|
    ensures ReadConstants(buf, p, |pool|, []) == Ok(Codec.Parsed(pool, q))
  {
    var empty: seq<Constant> := [];
    ReadConstantsAt(buf, p, pool, empty);
    q := p + |EncodeConstants(pool)|;
    StartEmpty(ReadConstants(buf, p, |pool|, empty), pool, empty, q);
  }

  lemma ReadPoolAt(buf: Bytes, p: nat, pool: seq<Constant>) returns (q: nat)
    requires NoVec(pool) && |pool| < U32_LIMIT && (forall k :: 0 <= k < |pool| ==> RT.Encodable(pool[k]))
    requires RT.At(buf, p, EncodePool(pool))
    ensures q == p + |EncodePool(pool)|
    ensures ReadPool(buf, p) == Ok(Codec.Parsed(pool, q))
  {
    RT.CountFits(|pool|, U32_LIMIT);
    RT.AtSplit(buf, p, ToBE(|pool|, 4), EncodeConstants(pool));
    RT.ReadU32At(buf, p, |pool|);
    ReadPoolUnfold(buf, p, |pool|);
    q := ReadPoolConstantsAt(buf, p + 4, pool);
  }

  // ---------------------------------------------------------------------------
  // Instructions.

  /** An encoded instruction reads back under any arms that select the opcode of
      each byte the writer emits. */
  lemma ReadFirstInstructionAt(arms: Arms, buf: Bytes, p: nat, i: Instruction)
    requires SelectsWritable(arms) && Writable(i) && RT.At(buf, p, EncodeInstruction(i))
    ensures Codec.ReadInstruction(REGS, arms, buf, p)
         == Ok(Codec.Parsed(Some(i), p + 1 + |Codec.EncodeOperands(REGS, i)|))
  {
    InstructionShape(arms, i);
    RegsDistinct();
    RT.ReadInstructionAt(REGS, arms, buf, p, OpcodeByte(i), i);
  }

  lemma InstructionShape(arms: Arms, i: Instruction)
    requires SelectsWritable(arms) && Writable(i)
    ensures FindOp(arms, OpcodeByte(i)) == Some(OpcodeOf(i))
    ensures EncodeInstruction(i) == [OpcodeByte(i)] + Codec.EncodeOperands(REGS, i)
  {
  }

  /** The first instruction of an encoded stream at p reads back, and the loop goes on at q. */
  lemma ReadInstrsCons(arms: Arms, buf: Bytes, p: nat, q: nat, i: Instruction, acc: seq<Instruction>)
    requires SelectsWritable(arms) && Writable(i) && RT.At(buf, p, EncodeInstruction(i))
    requires q == p + 1 + |Codec.EncodeOperands(REGS, i)| && q <= |buf|
    ensures Codec.ReadInstrs(REGS, arms, buf, p, acc) == Codec.ReadInstrs(REGS, arms, buf, q, acc + [i])
  {
    ReadFirstInstructionAt(arms, buf, p, i);
    RT.ReadInstrsStep(REGS, arms, buf, p, i, q, acc);
  }

  /** An encoded stream at p is its first instruction's encoding, then the rest's from q. */
  lemma InstructionsLayout(buf: Bytes, p: nat, instrs: seq<Instruction>) returns (q: nat)
    requires AllWritable(instrs) && instrs != [] && RT.At(buf, p, EncodeInstructions(instrs))
    ensures q == p + 1 + |Codec.EncodeOperands(REGS, instrs[0])| && q <= |buf|
    ensures RT.At(buf, p, EncodeInstruction(instrs[0]))
    ensures AllWritable(instrs[1..]) && RT.At(buf, q, EncodeInstructions(instrs[1..]))
    ensures q + |EncodeInstructions(instrs[1..])| == p + |EncodeInstructions(instrs)|
  {
    var e1, e2 := EncodeInstruction(instrs[0]), EncodeInstructions(instrs[1..]);
    assert EncodeInstructions(instrs) == e1 + e2;
    assert |e1| == 1 + |Codec.EncodeOperands(REGS, instrs[0])|;
    q := SplitAt(buf, p, e1, e2);
  }

  lemma {:induction false} ReadInstrsAt(arms: Arms, buf: Bytes, p: nat, instrs: seq<Instruction>,
                                        acc: seq<Instruction>)
    requires SelectsWritable(arms)
    requires AllWritable(instrs) && RT.At(buf, p, EncodeInstructions(instrs))
    requires p + |EncodeInstructions(instrs)| == |buf|
    ensures Codec.ReadInstrs(REGS, arms, buf, p, acc) == Ok(acc + instrs)
    decreases instrs
  {
    if instrs == [] {
      assert acc + instrs == acc;
    } else {
      var q := InstructionsLayout(buf, p, instrs);
      ReadInstrsCons(arms, buf, p, q, instrs[0], acc);
      var rest, acc' := instrs[1..], acc + [instrs[0]];
      ReadInstrsAt(arms, buf, q, rest, acc');
      RT.AppendCons(acc, instrs);
    }
  }

  // ---------------------------------------------------------------------------
  // The whole file.

  lemma ReadHeaderAt(buf: Bytes)
    requires RT.At(buf, 0, EncodeHeader())
    ensures ReadHeader(buf) == Ok(Codec.Parsed((), 6))
  {
    RT.AtSplit(buf, 0, ToBE(MAGIC_NUMBER, 4), ToBE(VERSION, 2));
    RT.ReadU32At(buf, 0, MAGIC_NUMBER);
    RT.ReadU16At(buf, 4, VERSION);
  }

  /** An empty import table is eight zero bytes. */
  lemma EmptyImportTable()
    ensures Codec.EncodeImportTable([]) == ToBE(0, 8)
    ensures forall k :: 0 <= k < 8 ==> Codec.EncodeImportTable([])[k] == INST_NOOP
  {
    ZeroBytes(8);
  }

  /** The holders the older writer writes and the older reader gives back. */
  predicate RoundTrips(h: Holder) {
    && NoVec(h.constantPool)
    && |h.constantPool| < U32_LIMIT
    && (forall k :: 0 <= k < |h.constantPool| ==> RT.Encodable(h.constantPool[k]))
    && h.imports == []
    && AllWritable(h.instructions)
  }

  lemma ReadBytecodeUnfold(buf: Bytes, p5: nat, h: Holder)
    requires ReadHeader(buf) == Ok(Codec.Parsed((), 6))
    requires ReadPool(buf, 6) == Ok(Codec.Parsed(h.constantPool, p5))
    requires h.imports == [] && Codec.ReadInstrs(REGS, ARMS, buf, p5, []) == Ok(h.instructions)
    ensures ReadBytecode(buf) == Ok(h)
  {
  }

  /** read_bytecode(write_bytecode(h)) == h for a holder with no imports, no Vec
      constants, strings the reader accepts and a pool count that fits in a u32. */
  lemma RoundTrip(h: Holder)
    requires RoundTrips(h)
    ensures ReadBytecode(EncodeBytecode(h)) == Ok(h)
  {
    var buf := EncodeBytecode(h);
    var p5 := RoundTripLayout(buf, h);
    NoopArm();
    ReadNoops(ARMS, buf, p5, p5 + 8, []);
    ArmsSelectWritable();
    ReadInstrsAt(ARMS, buf, p5 + 8, h.instructions, []);
    assert [] + h.instructions == h.instructions;
    ReadBytecodeUnfold(buf, p5, h);
  }

  /** The header and the pool of a written file read back, and the empty import
      table after them is eight zero bytes. */
  lemma RoundTripLayout(buf: Bytes, h: Holder) returns (p5: nat)
    requires RoundTrips(h) && buf == EncodeBytecode(h)
    ensures ReadHeader(buf) == Ok(Codec.Parsed((), 6))
    ensures ReadPool(buf, 6) == Ok(Codec.Parsed(h.constantPool, p5))
    ensures p5 + 8 <= |buf| && forall k :: p5 <= k < p5 + 8 ==> buf[k] == INST_NOOP
    ensures RT.At(buf, p5 + 8, EncodeInstructions(h.instructions))
    ensures p5 + 8 + |EncodeInstructions(h.instructions)| == |buf|
  {
    var eH, eP := EncodeHeader(), EncodePool(h.constantPool);
    var eI, eX := Codec.EncodeImportTable(h.imports), EncodeInstructions(h.instructions);
    var q1, q2, q3 := RT.Layout(buf, 0, eH, eP, eI, eX);
    ReadHeaderAt(buf);
    p5 := ReadPoolAt(buf, q1, h.constantPool);
    EmptyImportTable();
  }

  /** The reader never yields imports, so a holder with imports never reads back. */
  lemma ImportsAreLost(h: Holder)
    requires NoVec(h.constantPool) && AllWritable(h.instructions) && h.imports != []
    ensures ReadBytecode(EncodeBytecode(h)) != Ok(h)
  {
  }

  /** Worse, the import table is read as instructions: one empty import name
      writes the count 1, whose last byte is INST_ALLOC, and the reader decodes
      an Alloc(0) that was never written. */
  lemma ImportsReadAsInstructions()
    ensures ReadBytecode(EncodeBytecode(Holder([], [[]], []))) == Ok(Holder([], [], [Alloc(0)]))
  {
    var buf := EncodeBytecode(Holder([], [[]], []));
    OneImportLayout(buf);
    ReadCountOneAsInstructions(buf);
    ReadBytecodeUnfold(buf, 10, Holder([], [], [Alloc(0)]));
  }

  /** The file written for one empty import name: a header, an empty pool, and
      sixteen bytes of which only the one at 17 is not zero. */
  lemma OneImportLayout(buf: Bytes)
    requires buf == EncodeBytecode(Holder([], [[]], []))
    ensures |buf| == 26 && ReadHeader(buf) == Ok(Codec.Parsed((), 6))
    ensures ReadPool(buf, 6) == Ok(Codec.Parsed([], 10))
    ensures forall k :: 10 <= k < 26 ==> buf[k] == if k == 17 then INST_ALLOC else 0
  {
    var eI := Codec.EncodeImportTable([[]]);
    var q1, q2, q3 := RT.Layout(buf, 0, EncodeHeader(), EncodePool([]), eI, EncodeInstructions([]));
    ReadHeaderAt(buf);
    var p5 := ReadPoolAt(buf, q1, []);
    ImportCountOne();
    assert forall k :: 10 <= k < 26 ==> buf[k] == eI[k - 10];
  }

  /** Those sixteen bytes read as NOOPs around a single Alloc(0). */
  lemma ReadCountOneAsInstructions(buf: Bytes)
    requires |buf| == 26 && forall k :: 10 <= k < 26 ==> buf[k] == if k == 17 then INST_ALLOC else 0
    ensures Codec.ReadInstrs(REGS, ARMS, buf, 10, []) == Ok([Alloc(0)])
  {
    NoopArm();
    ReadNoops(ARMS, buf, 10, 17, []);
    AllocZeroAt(buf);
    RT.ReadInstrsStep(REGS, ARMS, buf, 17, Alloc(0), 22, []);
    ReadNoops(ARMS, buf, 22, 26, [Alloc(0)]);
    assert [] + [Alloc(0)] == [Alloc(0)];
  }

  /** The import table of one empty name: the count 1, then the name's length 0. */
  lemma ImportCountOne()
    ensures |Codec.EncodeImportTable([[]])| == 16
    ensures forall k :: 0 <= k < 16 ==> Codec.EncodeImportTable([[]])[k] == if k == 7 then 1 else 0
  {
    ZeroBytes(7);
    ZeroBytes(8);
    assert ToBE(1, 8) == ToBE(0, 7) + [1];
    assert Codec.EncodeImports([[]]) == ToBE(0, 8);
  }

  lemma AllocZeroAt(buf: Bytes)
    requires |buf| == 26 && buf[17] == INST_ALLOC && forall k :: 18 <= k < 22 ==> buf[k] == 0
    ensures Codec.ReadInstruction(REGS, ARMS, buf, 17) == Ok(Codec.Parsed(Some(Alloc(0)), 22))
  {
    ZeroBytes(4);
    assert buf[18..22] == ToBE(0, 4);
    RT.ReadU32At(buf, 18, 0);
    assert FindOp(ARMS, INST_ALLOC) == Some(OpAlloc);
    RT.ReadInstructionUnfold(REGS, ARMS, buf, 17, INST_ALLOC, OpAlloc);
  }
}
