/** Decoding what the writer wrote: the round trip of src/bytecode/codewriter.rs
    through src/bytecode/codereader.rs, field by field, and the side conditions
    it needs. */
module CodecRoundTrip {
  import opened Types
  import opened Primitives
  import opened Format
  import opened Codec

  /** The bytes of buf from p on start with e. */
  predicate At(buf: Bytes, p: nat, e: Bytes) {
    p + |e| <= |buf| && buf[p..p + |e|] == e
  }

  lemma AtSplit(buf: Bytes, p: nat, e1: Bytes, e2: Bytes)
    requires At(buf, p, e1 + e2)
    ensures At(buf, p, e1) && At(buf, p + |e1|, e2)
  {
    assert buf[p..p + |e1|] == (e1 + e2)[..|e1|];
    assert buf[p + |e1|..p + |e1| + |e2|] == (e1 + e2)[|e1|..];
  }

  /** Chains the facts of an inductive step without unfolding the values compared. */
  lemma Link<T>(x: Read<T>, y: Read<T>, v1: T, v2: T, n1: nat, n2: nat)
    requires x == y && y == Ok(Parsed(v1, n1)) && v1 == v2 && n1 == n2
    ensures x == Ok(Parsed(v2, n2))
  {
  }

  lemma AppendCons<T>(acc: seq<T>, s: seq<T>)
    requires s != []
    ensures acc + [s[0]] + s[1..] == acc + s
  {
    assert s == [s[0]] + s[1..];
  }

  // ---------------------------------------------------------------------------
  // Fields.

  lemma ReadBEAt(buf: Bytes, p: nat, v: nat, n: nat)
    requires v < Pow256(n) && At(buf, p, ToBE(v, n))
    ensures ReadBE(buf, p, n) == Ok(Parsed(v, p + n))
  {
    FromToBE(v, n);
  }

  lemma ReadU8At(buf: Bytes, p: nat, b: u8)
    requires At(buf, p, [b])
    ensures ReadU8(buf, p) == Ok(Parsed(b, p + 1))
  {
    assert buf[p] == buf[p..p + 1][0];
  }

  lemma ReadU16At(buf: Bytes, p: nat, v: u16)
    requires At(buf, p, ToBE(v, 2))
    ensures ReadU16(buf, p) == Ok(Parsed(v, p + 2))
  {
    Pow256Values();
    ReadBEAt(buf, p, v, 2);
  }

  lemma ReadU32At(buf: Bytes, p: nat, v: u32)
    requires At(buf, p, ToBE(v, 4))
    ensures ReadU32(buf, p) == Ok(Parsed(v, p + 4))
  {
    Pow256Values();
    ReadBEAt(buf, p, v, 4);
  }

  lemma ReadU64At(buf: Bytes, p: nat, v: u64)
    requires At(buf, p, ToBE(v, 8))
    ensures ReadU64(buf, p) == Ok(Parsed(v, p + 8))
  {
    Pow256Values();
    ReadBEAt(buf, p, v, 8);
  }

  lemma ReadI64At(buf: Bytes, p: nat, v: i64)
    requires At(buf, p, ToBE(I64Bits(v), 8))
    ensures ReadI64(buf, p) == Ok(Parsed(v, p + 8))
  {
    ReadU64At(buf, p, I64Bits(v));
    I64BitsInverse(v);
  }

  /** A count below the field's range is written unchanged. */
  lemma CountFits(n: nat, limit: nat)
    requires n < limit
    ensures n % limit == n
  {
  }

  lemma ReadNAt(buf: Bytes, p: nat, s: Bytes)
    requires At(buf, p, s)
    ensures ReadN(buf, p, |s|) == Ok(Parsed(s, p + |s|))
  {
  }

  /** A string the reader accepts reads back from its encoding. */
  lemma ReadStringAt(buf: Bytes, p: nat, s: Str)
    requires ValidStr(s) && At(buf, p, EncodeString(s))
    ensures ReadString(buf, p) == Ok(Parsed(s, p + 8 + |s|))
    ensures ReadString(buf, p) == Ok(Parsed(s, p + |EncodeString(s)|))
  {
    CountFits(|s|, U64_LIMIT);
    AtSplit(buf, p, ToBE(|s|, 8), s);
    ReadU64At(buf, p, |s|);
    ReadNAt(buf, p + 8, s);
  }

  lemma ReadRegLocAt(t: RegTags, buf: Bytes, p: nat, l: RegisterLocation)
    requires RegTagsDistinct(t) && At(buf, p, [EncodeRegLoc(t, l)])
    ensures ReadRegLoc(t, buf, p) == Ok(Parsed(l, p + 1))
  {
    ReadU8At(buf, p, EncodeRegLoc(t, l));
  }

  lemma ReadRegisterAt(t: RegTags, buf: Bytes, p: nat, r: Register)
    requires RegTagsDistinct(t) && At(buf, p, EncodeRegister(t, r))
    ensures ReadRegister(t, buf, p) == Ok(Parsed(r, p + 5))
  {
    AtSplit(buf, p, ToBE(r.index, 4), [EncodeRegLoc(t, r.loc)]);
    ReadU32At(buf, p, r.index);
    ReadRegLocAt(t, buf, p + 4, r.loc);
  }

  lemma ReadRegRefAt(t: RegTags, buf: Bytes, p: nat, rr: RegisterReference)
    requires RegTagsDistinct(t) && At(buf, p, [EncodeRegRef(t, rr)])
    ensures ReadRegRef(t, buf, p) == Ok(Parsed(rr, p + 1))
  {
    ReadU8At(buf, p, EncodeRegRef(t, rr));
  }

  // ---------------------------------------------------------------------------
  // Constants.

  /** What the writer can emit so that the reader reads it back: no Vec (written
      without its count) and strings the reader accepts. */
  predicate Encodable(c: Constant) {
    !c.Vec? && (c.String? ==> ValidStr(c.s))
  }

  lemma ReadIntConstantAt(fmt: Format, buf: Bytes, p: nat, v: i64)
    requires ConstTagsDistinct(fmt.consts)
    requires At(buf, p, EncodeConstant(fmt, Int(v)))
    ensures ReadConstant(fmt, buf, p) == Ok(Parsed(Int(v), p + 9))
  {
    AtSplit(buf, p, [fmt.consts.tagInt], ToBE(I64Bits(v), 8));
    ReadU8At(buf, p, fmt.consts.tagInt);
    ReadI64At(buf, p + 1, v);
  }

  lemma ReadDoubleConstantAt(fmt: Format, buf: Bytes, p: nat, bits: u64)
    requires ConstTagsDistinct(fmt.consts)
    requires At(buf, p, EncodeConstant(fmt, Double(bits)))
    ensures ReadConstant(fmt, buf, p) == Ok(Parsed(Double(bits), p + 9))
  {
    AtSplit(buf, p, [fmt.consts.tagDouble], ToBE(bits, 8));
    ReadU8At(buf, p, fmt.consts.tagDouble);
    ReadU64At(buf, p + 1, bits);
  }

  lemma ReadStringConstantAt(fmt: Format, buf: Bytes, p: nat, s: Str)
    requires ConstTagsDistinct(fmt.consts) && ValidStr(s)
    requires At(buf, p, EncodeConstant(fmt, String(s)))
    ensures ReadConstant(fmt, buf, p) == Ok(Parsed(String(s), p + 9 + |s|))
  {
    AtSplit(buf, p, [fmt.consts.tagString], EncodeString(s));
    ReadU8At(buf, p, fmt.consts.tagString);
    ReadStringAt(buf, p + 1, s);
  }

  lemma ReadBooleanConstantAt(fmt: Format, buf: Bytes, p: nat, b: bool)
    requires ConstTagsDistinct(fmt.consts)
    requires At(buf, p, EncodeConstant(fmt, Boolean(b)))
    ensures ReadConstant(fmt, buf, p) == Ok(Parsed(Boolean(b), p + 2))
  {
    var v: u8 := if b then 1 else 0;
    AtSplit(buf, p, [fmt.consts.tagBoolean], [v]);
    ReadU8At(buf, p, fmt.consts.tagBoolean);
    ReadU8At(buf, p + 1, v);
  }

  lemma ReadAddressConstantAt(fmt: Format, buf: Bytes, p: nat, r: Register)
    requires ConstTagsDistinct(fmt.consts) && RegTagsDistinct(fmt.regs)
    requires At(buf, p, EncodeConstant(fmt, Address(r)))
    ensures ReadConstant(fmt, buf, p) == Ok(Parsed(Address(r), p + 6))
  {
    AtSplit(buf, p, [fmt.consts.tagAddress], EncodeRegister(fmt.regs, r));
    ReadU8At(buf, p, fmt.consts.tagAddress);
    ReadRegisterAt(fmt.regs, buf, p + 1, r);
  }

  /** Every constant the writer emits, other than a Vec, reads back and ends where its encoding ends. */
  lemma ReadConstantAt(fmt: Format, buf: Bytes, p: nat, c: Constant) returns (q: nat)
    requires ConstTagsDistinct(fmt.consts) && RegTagsDistinct(fmt.regs)
    requires Encodable(c) && At(buf, p, EncodeConstant(fmt, c))
    ensures q == p + |EncodeConstant(fmt, c)|
    ensures ReadConstant(fmt, buf, p) == Ok(Parsed(c, q))
  {
    q := p + |EncodeConstant(fmt, c)|;
    match c
    case Int(v) => ReadIntConstantAt(fmt, buf, p, v);
    case Double(bits) => ReadDoubleConstantAt(fmt, buf, p, bits);
    case String(s) => ReadStringConstantAt(fmt, buf, p, s);
    case Boolean(b) => ReadBooleanConstantAt(fmt, buf, p, b);
    case Address(r) => ReadAddressConstantAt(fmt, buf, p, r);
  }

  lemma ReadConstantsUnfold(fmt: Format, buf: Bytes, p: nat, count: nat, acc: seq<Constant>,
                            c: Constant, q: nat)
    requires p <= |buf| && q <= |buf| && count > 0 && ReadConstant(fmt, buf, p) == Ok(Parsed(c, q))
    ensures ReadConstants(fmt, buf, p, count, acc) == ReadConstants(fmt, buf, q, count - 1, acc + [c])
  {
  }

  lemma ReadConstantsNil(fmt: Format, buf: Bytes, p: nat, acc: seq<Constant>)
    requires p <= |buf|
    ensures ReadConstants(fmt, buf, p, 0, acc) == Ok(Parsed(acc, p))
  {
  }

  /** The first constant of an encoded pool at p reads back, and the rest follows at q. */
  lemma ReadConstantsCons(fmt: Format, buf: Bytes, p: nat, cs: seq<Constant>, acc: seq<Constant>)
    returns (q: nat)
    requires ConstTagsDistinct(fmt.consts) && RegTagsDistinct(fmt.regs)
    requires cs != [] && Encodable(cs[0]) && At(buf, p, EncodeConstants(fmt, cs))
    ensures q <= |buf| && At(buf, q, EncodeConstants(fmt, cs[1..]))
    ensures q + |EncodeConstants(fmt, cs[1..])| == p + |EncodeConstants(fmt, cs)|
    ensures ReadConstants(fmt, buf, p, |cs|, acc)
         == ReadConstants(fmt, buf, q, |cs[1..]|, acc + [cs[0]])
  {
    var e0 := EncodeConstant(fmt, cs[0]);
    AtSplit(buf, p, e0, EncodeConstants(fmt, cs[1..]));
    q := ReadConstantAt(fmt, buf, p, cs[0]);
    ReadConstantsUnfold(fmt, buf, p, |cs|, acc, cs[0], q);
  }

  lemma ReadConstantsAtNil(fmt: Format, buf: Bytes, p: nat, cs: seq<Constant>, acc: seq<Constant>)
    requires cs == [] && p <= |buf|
    ensures ReadConstants(fmt, buf, p, |cs|, acc)
         == Ok(Parsed(acc + cs, p + |EncodeConstants(fmt, cs)|))
  {
    ReadConstantsNil(fmt, buf, p, acc);
    assert acc == acc + cs;
    assert p == p + |EncodeConstants(fmt, cs)|;
    Link(ReadConstants(fmt, buf, p, |cs|, acc), ReadConstants(fmt, buf, p, 0, acc),
         acc, acc + cs, p, p + |EncodeConstants(fmt, cs)|);
  }

  /** Joins the first constant's step to the reading of the rest. */
  lemma ReadConstantsAtStep(fmt: Format, buf: Bytes, p: nat, q: nat, cs: seq<Constant>,
                            rest: seq<Constant>, acc: seq<Constant>, acc': seq<Constant>)
    requires cs != [] && rest == cs[1..] && acc' == acc + [cs[0]] && p <= |buf| && q <= |buf|
    requires q + |EncodeConstants(fmt, rest)| == p + |EncodeConstants(fmt, cs)|
    requires ReadConstants(fmt, buf, p, |cs|, acc) == ReadConstants(fmt, buf, q, |rest|, acc')
    requires ReadConstants(fmt, buf, q, |rest|, acc')
          == Ok(Parsed(acc' + rest, q + |EncodeConstants(fmt, rest)|))
    ensures ReadConstants(fmt, buf, p, |cs|, acc)
         == Ok(Parsed(acc + cs, p + |EncodeConstants(fmt, cs)|))
  {
    AppendCons(acc, cs);
  }

  lemma {:induction false} ReadConstantsAt(fmt: Format, buf: Bytes, p: nat, cs: seq<Constant>,
                                           acc: seq<Constant>)
    requires ConstTagsDistinct(fmt.consts) && RegTagsDistinct(fmt.regs)
    requires forall k :: 0 <= k < |cs| ==> Encodable(cs[k])
    requires At(buf, p, EncodeConstants(fmt, cs))
    ensures ReadConstants(fmt, buf, p, |cs|, acc)
         == Ok(Parsed(acc + cs, p + |EncodeConstants(fmt, cs)|))
    decreases cs
  {
    if cs == [] {
      ReadConstantsAtNil(fmt, buf, p, cs, acc);
    } else {
      var q := ReadConstantsCons(fmt, buf, p, cs, acc);
      var rest, acc' := cs[1..], acc + [cs[0]];
      ReadConstantsAt(fmt, buf, q, rest, acc');
      ReadConstantsAtStep(fmt, buf, p, q, cs, rest, acc, acc');
    }
  }

  /** The writer's Vec encoding does not read back: the empty Vec is its tag alone,
      and the reader then finds no count byte. */
  lemma VecConstantDoesNotRoundTrip(fmt: Format)
    requires ConstTagsDistinct(fmt.consts)
    ensures EncodeConstant(fmt, Vec([])) == [fmt.consts.tagVec]
    ensures ReadConstant(fmt, EncodeConstant(fmt, Vec([])), 0) == Err(UnexpectedEof)
  {
  }

  // ---------------------------------------------------------------------------
  // Instructions.

  lemma ReadRegWithRefAt(t: RegTags, buf: Bytes, p: nat, r: Register, rr: RegisterReference)
    requires RegTagsDistinct(t) && At(buf, p, EncodeRegister(t, r) + [EncodeRegRef(t, rr)])
    ensures ReadRegWithRef(t, buf, p) == Ok(Parsed((r, rr), p + 6))
  {
    AtSplit(buf, p, EncodeRegister(t, r), [EncodeRegRef(t, rr)]);
    ReadRegisterAt(t, buf, p, r);
    ReadRegRefAt(t, buf, p + 5, rr);
  }

  lemma ReadTwoRegsAt(t: RegTags, buf: Bytes, p: nat, a: Register, b: Register)
    requires RegTagsDistinct(t) && At(buf, p, EncodeRegister(t, a) + EncodeRegister(t, b))
    ensures ReadTwoRegs(t, buf, p) == Ok(Parsed((a, b), p + 10))
  {
    AtSplit(buf, p, EncodeRegister(t, a), EncodeRegister(t, b));
    ReadRegisterAt(t, buf, p, a);
    ReadRegisterAt(t, buf, p + 5, b);
  }

  lemma ReadThreeRegsAt(t: RegTags, buf: Bytes, p: nat, a: Register, b: Register, c: Register)
    requires RegTagsDistinct(t)
    requires At(buf, p, EncodeRegister(t, a) + EncodeRegister(t, b) + EncodeRegister(t, c))
    ensures ReadThreeRegs(t, buf, p) == Ok(Parsed((a, b, c), p + 15))
  {
    AtSplit(buf, p, EncodeRegister(t, a) + EncodeRegister(t, b), EncodeRegister(t, c));
    AtSplit(buf, p, EncodeRegister(t, a), EncodeRegister(t, b));
    ReadRegisterAt(t, buf, p, a);
    ReadRegisterAt(t, buf, p + 5, b);
    ReadRegisterAt(t, buf, p + 10, c);
  }

  lemma ReadMoveOperandsAt(t: RegTags, buf: Bytes, p: nat, a: Register, ar: RegisterReference,
                           b: Register, br: RegisterReference)
    requires RegTagsDistinct(t) && At(buf, p, EncodeMoveOperands(t, a, ar, b, br))
    ensures ReadMoveOperands(t, buf, p) == Ok(Parsed((a, ar, b, br), p + 12))
  {
    var first := EncodeRegister(t, a) + [EncodeRegRef(t, ar)];
    var second := EncodeRegister(t, b) + [EncodeRegRef(t, br)];
    assert EncodeMoveOperands(t, a, ar, b, br) == first + second;
    AtSplit(buf, p, first, second);
    ReadRegWithRefAt(t, buf, p, a, ar);
    ReadRegWithRefAt(t, buf, p + 6, b, br);
  }

  lemma ReadSizeAndLocAt(t: RegTags, buf: Bytes, p: nat, n: u32, l: RegisterLocation)
    requires RegTagsDistinct(t) && At(buf, p, ToBE(n, 4) + [EncodeRegLoc(t, l)])
    ensures ReadU32(buf, p) == Ok(Parsed(n, p + 4))
    ensures ReadRegLoc(t, buf, p + 4) == Ok(Parsed(l, p + 5))
  {
    AtSplit(buf, p, ToBE(n, 4), [EncodeRegLoc(t, l)]);
    ReadU32At(buf, p, n);
    ReadRegLocAt(t, buf, p + 4, l);
  }

  /** Every instruction's operands read back as the instruction, under its own opcode's arm. */
  lemma ReadOperandsAt(t: RegTags, buf: Bytes, p: nat, i: Instruction)
    requires RegTagsDistinct(t) && At(buf, p, EncodeOperands(t, i))
    ensures ReadOperands(t, OpcodeOf(i), buf, p) == Ok(Parsed(Some(i), p + |EncodeOperands(t, i)|))
  {
    if i.Alloc? || i.Free? {
      ReadSizeOperandsAt(t, buf, p, i);
    } else if i.FrameAlloc? || i.FrameFree? {
      ReadFrameOperandsAt(t, buf, p, i);
    } else if i.Jump? || i.Call? || i.ExtCall? {
      ReadWordOperandsAt(t, buf, p, i);
    } else if i.Mov? || i.Cpy? || i.Ref? {
      ReadMoveAt(t, buf, p, i);
    } else if i.StackPush? || i.StackMov? {
      ReadStackRefAt(t, buf, p, i);
    } else if i.Add? || i.Sub? {
      ReadAddSubOperandsAt(t, buf, p, i);
    } else if i.Mul? || i.Div? || i.Mod? {
      ReadMulDivModOperandsAt(t, buf, p, i);
    } else if i.Equal? || i.NotEqual? {
      ReadEqualityOperandsAt(t, buf, p, i);
    } else if i.Greater? || i.Less? {
      ReadOrderOperandsAt(t, buf, p, i);
    } else if i.GreaterEqual? || i.LessEqual? {
      ReadOrderEqOperandsAt(t, buf, p, i);
    }
  }

  lemma ReadSizeOperandsAt(t: RegTags, buf: Bytes, p: nat, i: Instruction)
    requires i.Alloc? || i.Free?
    requires RegTagsDistinct(t) && At(buf, p, EncodeOperands(t, i))
    ensures ReadOperands(t, OpcodeOf(i), buf, p) == Ok(Parsed(Some(i), p + |EncodeOperands(t, i)|))
  {
    match i
    case Alloc(n) => ReadU32At(buf, p, n);
    case Free(n) => ReadU32At(buf, p, n);
  }

  lemma ReadFrameOperandsAt(t: RegTags, buf: Bytes, p: nat, i: Instruction)
    requires i.FrameAlloc? || i.FrameFree?
    requires RegTagsDistinct(t) && At(buf, p, EncodeOperands(t, i))
    ensures ReadOperands(t, OpcodeOf(i), buf, p) == Ok(Parsed(Some(i), p + |EncodeOperands(t, i)|))
  {
    match i
    case FrameAlloc(n, l) => ReadSizeAndLocAt(t, buf, p, n, l);
    case FrameFree(n, l) => ReadSizeAndLocAt(t, buf, p, n, l);
  }

  lemma ReadWordOperandsAt(t: RegTags, buf: Bytes, p: nat, i: Instruction)
    requires i.Jump? || i.Call? || i.ExtCall?
    requires RegTagsDistinct(t) && At(buf, p, EncodeOperands(t, i))
    ensures ReadOperands(t, OpcodeOf(i), buf, p) == Ok(Parsed(Some(i), p + |EncodeOperands(t, i)|))
  {
    match i
    case Jump(k) => ReadI64At(buf, p, k);
    case Call(a) => ReadU64At(buf, p, a);
    case ExtCall(id) => ReadU64At(buf, p, id);
  }

  lemma ReadMoveAt(t: RegTags, buf: Bytes, p: nat, i: Instruction)
    requires i.Mov? || i.Cpy? || i.Ref?
    requires RegTagsDistinct(t) && At(buf, p, EncodeOperands(t, i))
    ensures ReadOperands(t, OpcodeOf(i), buf, p) == Ok(Parsed(Some(i), p + |EncodeOperands(t, i)|))
  {
    ReadMoveOperandsAt(t, buf, p, i.dst, i.dstRef, i.src, i.srcRef);
  }

  lemma ReadStackRefAt(t: RegTags, buf: Bytes, p: nat, i: Instruction)
    requires i.StackPush? || i.StackMov?
    requires RegTagsDistinct(t) && At(buf, p, EncodeOperands(t, i))
    ensures ReadOperands(t, OpcodeOf(i), buf, p) == Ok(Parsed(Some(i), p + |EncodeOperands(t, i)|))
  {
    ReadRegWithRefAt(t, buf, p, i.reg, i.rref);
  }

  lemma ReadAddSubOperandsAt(t: RegTags, buf: Bytes, p: nat, i: Instruction)
    requires i.Add? || i.Sub?
    requires RegTagsDistinct(t) && At(buf, p, EncodeOperands(t, i))
    ensures ReadOperands(t, OpcodeOf(i), buf, p) == Ok(Parsed(Some(i), p + |EncodeOperands(t, i)|))
  {
    ReadThreeRegsAt(t, buf, p, i.dst, i.a, i.b);
  }

  lemma ReadMulDivModOperandsAt(t: RegTags, buf: Bytes, p: nat, i: Instruction)
    requires i.Mul? || i.Div? || i.Mod?
    requires RegTagsDistinct(t) && At(buf, p, EncodeOperands(t, i))
    ensures ReadOperands(t, OpcodeOf(i), buf, p) == Ok(Parsed(Some(i), p + |EncodeOperands(t, i)|))
  {
    ReadThreeRegsAt(t, buf, p, i.dst, i.a, i.b);
  }

  lemma ReadEqualityOperandsAt(t: RegTags, buf: Bytes, p: nat, i: Instruction)
    requires i.Equal? || i.NotEqual?
    requires RegTagsDistinct(t) && At(buf, p, EncodeOperands(t, i))
    ensures ReadOperands(t, OpcodeOf(i), buf, p) == Ok(Parsed(Some(i), p + |EncodeOperands(t, i)|))
  {
    ReadTwoRegsAt(t, buf, p, i.a, i.b);
  }

  lemma ReadOrderOperandsAt(t: RegTags, buf: Bytes, p: nat, i: Instruction)
    requires i.Greater? || i.Less?
    requires RegTagsDistinct(t) && At(buf, p, EncodeOperands(t, i))
    ensures ReadOperands(t, OpcodeOf(i), buf, p) == Ok(Parsed(Some(i), p + |EncodeOperands(t, i)|))
  {
    ReadTwoRegsAt(t, buf, p, i.a, i.b);
  }

  lemma ReadOrderEqOperandsAt(t: RegTags, buf: Bytes, p: nat, i: Instruction)
    requires i.GreaterEqual? || i.LessEqual?
    requires RegTagsDistinct(t) && At(buf, p, EncodeOperands(t, i))
    ensures ReadOperands(t, OpcodeOf(i), buf, p) == Ok(Parsed(Some(i), p + |EncodeOperands(t, i)|))
  {
    ReadTwoRegsAt(t, buf, p, i.a, i.b);
  }

  /** An opcode byte followed by its operands reads back as the instruction, given
      that the arms select the instruction's opcode for that byte. */
  lemma ReadInstructionAt(t: RegTags, arms: Arms, buf: Bytes, p: nat, b: u8, i: Instruction)
    requires RegTagsDistinct(t) && FindOp(arms, b) == Some(OpcodeOf(i))
    requires At(buf, p, [b] + EncodeOperands(t, i))
    ensures ReadInstruction(t, arms, buf, p)
         == Ok(Parsed(Some(i), p + 1 + |EncodeOperands(t, i)|))
  {
    AtSplit(buf, p, [b], EncodeOperands(t, i));
    ReadU8At(buf, p, b);
    ReadInstructionUnfold(t, arms, buf, p, b, OpcodeOf(i));
    ReadOperandsAt(t, buf, p + 1, i);
  }

  lemma ReadInstructionUnfold(t: RegTags, arms: Arms, buf: Bytes, p: nat, b: u8, op: Opcode)
    requires p < |buf| && ReadU8(buf, p) == Ok(Parsed(b, p + 1)) && FindOp(arms, b) == Some(op)
    ensures ReadInstruction(t, arms, buf, p) == ReadOperands(t, op, buf, p + 1)
  {
  }

  function Values(instrs: seq<Option<Instruction>>): (r: seq<Instruction>)
    requires AllSome(instrs)
    ensures |r| == |instrs| && forall k :: 0 <= k < |r| ==> instrs[k] == Some(r[k])
  {
    seq(|instrs|, k requires 0 <= k < |instrs| => instrs[k].value)
  }

  /** The arms select every opcode by its byte. */
  predicate Selects(arms: Arms, code: Opcode -> u8) {
    forall k: Opcode :: FindOp(arms, code(k)) == Some(k)
  }

  lemma ReaderArmsSelect(fmt: Format)
    requires CodesDistinct(fmt.code)
    ensures Selects(ReaderArms(fmt), fmt.code)
  {
    forall k: Opcode ensures FindOp(ReaderArms(fmt), fmt.code(k)) == Some(k) {
      ReaderOpsComplete(k);
      FindOpOfCode(fmt.code, READER_OPS, k);
    }
  }

  lemma ReadInstrsStep(t: RegTags, arms: Arms, buf: Bytes, p: nat, i: Instruction, q: nat,
                       acc: seq<Instruction>)
    requires p < |buf| && q <= |buf|
    requires ReadInstruction(t, arms, buf, p) == Ok(Parsed(Some(i), q))
    ensures ReadInstrs(t, arms, buf, p, acc) == ReadInstrs(t, arms, buf, q, acc + [i])
  {
  }

  /** The first instruction of an encoded stream at p reads back, and the rest of the
      stream follows it at q. */
  lemma ReadInstrsCons(fmt: Format, arms: Arms, buf: Bytes, p: nat,
                       instrs: seq<Option<Instruction>>, acc: seq<Instruction>)
    returns (q: nat)
    requires RegTagsDistinct(fmt.regs) && Selects(arms, fmt.code)
    requires AllSome(instrs) && instrs != [] && At(buf, p, EncodeInstructions(fmt, instrs))
    ensures AllSome(instrs[1..]) && At(buf, q, EncodeInstructions(fmt, instrs[1..]))
    ensures q + |EncodeInstructions(fmt, instrs[1..])| == p + |EncodeInstructions(fmt, instrs)|
    ensures ReadInstrs(fmt.regs, arms, buf, p, acc)
         == ReadInstrs(fmt.regs, arms, buf, q, acc + [instrs[0].value])
  {
    var i := instrs[0].value;
    EncodeInstructionsCons(fmt, instrs);
    AtSplit(buf, p, EncodeInstruction(fmt, i), EncodeInstructions(fmt, instrs[1..]));
    q := ReadFirstInstructionAt(fmt, arms, buf, p, i);
    ReadInstrsStep(fmt.regs, arms, buf, p, i, q, acc);
  }

  lemma EncodeInstructionsCons(fmt: Format, instrs: seq<Option<Instruction>>)
    requires AllSome(instrs) && instrs != []
    ensures AllSome(instrs[1..])
    ensures EncodeInstructions(fmt, instrs)
         == EncodeInstruction(fmt, instrs[0].value) + EncodeInstructions(fmt, instrs[1..])
  {
  }

  /** An encoded instruction at p reads back, ending at q. */
  lemma ReadFirstInstructionAt(fmt: Format, arms: Arms, buf: Bytes, p: nat, i: Instruction)
    returns (q: nat)
    requires RegTagsDistinct(fmt.regs) && Selects(arms, fmt.code)
    requires At(buf, p, EncodeInstruction(fmt, i))
    ensures q == p + |EncodeInstruction(fmt, i)| && q <= |buf|
    ensures ReadInstruction(fmt.regs, arms, buf, p) == Ok(Parsed(Some(i), q))
  {
    ReadInstructionAt(fmt.regs, arms, buf, p, fmt.code(OpcodeOf(i)), i);
    q := p + |EncodeInstruction(fmt, i)|;
  }

  lemma ValuesCons(instrs: seq<Option<Instruction>>, acc: seq<Instruction>)
    requires AllSome(instrs) && instrs != []
    ensures AllSome(instrs[1..])
    ensures acc + [instrs[0].value] + Values(instrs[1..]) == acc + Values(instrs)
  {
    assert Values(instrs) == [instrs[0].value] + Values(instrs[1..]);
  }

  lemma {:induction false} ReadInstrsAt(fmt: Format, arms: Arms, buf: Bytes, p: nat,
                                        instrs: seq<Option<Instruction>>, acc: seq<Instruction>)
    requires RegTagsDistinct(fmt.regs) && Selects(arms, fmt.code) && AllSome(instrs)
    requires At(buf, p, EncodeInstructions(fmt, instrs))
    requires p + |EncodeInstructions(fmt, instrs)| == |buf|
    ensures ReadInstrs(fmt.regs, arms, buf, p, acc) == Ok(acc + Values(instrs))
    decreases instrs
  {
    if instrs == [] {
      assert acc + Values(instrs) == acc;
    } else {
      var q := ReadInstrsCons(fmt, arms, buf, p, instrs, acc);
      ReadInstrsAt(fmt, arms, buf, q, instrs[1..], acc + [instrs[0].value]);
      ValuesCons(instrs, acc);
    }
  }

  // ---------------------------------------------------------------------------
  // Tables and header.

  lemma ReadImportsUnfold(buf: Bytes, p: nat, count: nat, acc: seq<Str>, s: Str, q: nat)
    requires p <= |buf| && q <= |buf| && count > 0 && ReadString(buf, p) == Ok(Parsed(s, q))
    ensures ReadImports(buf, p, count, acc) == ReadImports(buf, q, count - 1, acc + [s])
  {
  }

  /** The first import of an encoded table at p reads back, and the rest follows at q. */
  lemma ReadImportsCons(buf: Bytes, p: nat, imports: seq<Str>, acc: seq<Str>) returns (q: nat)
    requires imports != [] && ValidStr(imports[0]) && At(buf, p, EncodeImports(imports))
    ensures At(buf, q, EncodeImports(imports[1..]))
    ensures q + |EncodeImports(imports[1..])| == p + |EncodeImports(imports)|
    ensures ReadImports(buf, p, |imports|, acc)
         == ReadImports(buf, q, |imports[1..]|, acc + [imports[0]])
  {
    AtSplit(buf, p, EncodeString(imports[0]), EncodeImports(imports[1..]));
    ReadStringAt(buf, p, imports[0]);
    q := p + |EncodeString(imports[0])|;
    ReadImportsUnfold(buf, p, |imports|, acc, imports[0], q);
  }

  /** Joins the reading x of a first import to the reading y of the rest. */
  lemma ReadImportsAtStep(x: Read<seq<Str>>, y: Read<seq<Str>>, imports: seq<Str>, rest: seq<Str>,
                          acc: seq<Str>, acc': seq<Str>, n1: nat, n2: nat)
    requires imports != [] && rest == imports[1..] && acc' == acc + [imports[0]]
    requires x == y && y == Ok(Parsed(acc' + rest, n1)) && n1 == n2
    ensures x == Ok(Parsed(acc + imports, n2))
  {
    AppendCons(acc, imports);
  }

  lemma {:induction false} ReadImportsAt(buf: Bytes, p: nat, imports: seq<Str>, acc: seq<Str>)
    requires forall k :: 0 <= k < |imports| ==> ValidStr(imports[k])
    requires At(buf, p, EncodeImports(imports))
    ensures ReadImports(buf, p, |imports|, acc)
         == Ok(Parsed(acc + imports, p + |EncodeImports(imports)|))
    decreases imports
  {
    if imports == [] {
      assert acc + imports == acc;
    } else {
      var q := ReadImportsCons(buf, p, imports, acc);
      var rest, acc' := imports[1..], acc + [imports[0]];
      ReadImportsAt(buf, q, rest, acc');
      ReadImportsAtStep(ReadImports(buf, p, |imports|, acc), ReadImports(buf, q, |rest|, acc'),
                        imports, rest, acc, acc', q + |EncodeImports(rest)|, p + |EncodeImports(imports)|);
    }
  }

  /** acc with the entries of `exports` for the names in `order` laid over it. */
  function Overlay(acc: map<Str, u64>, exports: map<Str, u64>, order: seq<Str>): map<Str, u64>
    requires forall k :: 0 <= k < |order| ==> order[k] in exports
  {
    map n | n in acc.Keys + (set m | m in order) :: if n in order then exports[n] else acc[n]
  }

  lemma ReadExportsNil(buf: Bytes, p: nat, exports: map<Str, u64>, acc: map<Str, u64>)
    requires p <= |buf|
    ensures ReadExports(buf, p, 0, acc)
         == Ok(Parsed(Overlay(acc, exports, []), p + |EncodeExports(exports, [])|))
  {
    assert Overlay(acc, exports, []) == acc;
  }

  lemma OverlayStep(acc: map<Str, u64>, exports: map<Str, u64>, order: seq<Str>)
    requires forall k :: 0 <= k < |order| ==> order[k] in exports
    requires order != []
    ensures Overlay(acc[order[0] := exports[order[0]]], exports, order[1..])
         == Overlay(acc, exports, order)
  {
    var rest := order[1..];
    forall n ensures n in order <==> n == order[0] || n in rest {
      assert order == [order[0]] + rest;
    }
  }

  lemma ReadExportsUnfold(buf: Bytes, p: nat, count: nat, acc: map<Str, u64>, name: Str,
                          mid: nat, v: u64, q: nat)
    requires p <= |buf| && count > 0
    requires ReadString(buf, p) == Ok(Parsed(name, mid))
    requires ReadU64(buf, mid) == Ok(Parsed(v, q))
    ensures ReadExports(buf, p, count, acc) == ReadExports(buf, q, count - 1, acc[name := v])
  {
  }

  /** An export entry, its name and its position, reads back. */
  lemma ReadExportEntryAt(buf: Bytes, p: nat, name: Str, v: u64) returns (q: nat)
    requires ValidStr(name) && At(buf, p, EncodeString(name) + ToBE(v, 8))
    ensures q == p + 16 + |name| && q <= |buf|
    ensures ReadString(buf, p) == Ok(Parsed(name, p + 8 + |name|))
    ensures ReadU64(buf, p + 8 + |name|) == Ok(Parsed(v, q))
  {
    AtSplit(buf, p, EncodeString(name), ToBE(v, 8));
    ReadStringAt(buf, p, name);
    ReadU64At(buf, p + 8 + |name|, v);
    q := p + 16 + |name|;
  }

  /** The first entry of an encoded export table at p reads back, and the rest follows at q. */
  lemma ReadExportsCons(buf: Bytes, p: nat, exports: map<Str, u64>, order: seq<Str>,
                        acc: map<Str, u64>) returns (q: nat)
    requires forall k :: 0 <= k < |order| ==> order[k] in exports
    requires order != [] && ValidStr(order[0]) && At(buf, p, EncodeExports(exports, order))
    ensures At(buf, q, EncodeExports(exports, order[1..]))
    ensures q + |EncodeExports(exports, order[1..])| == p + |EncodeExports(exports, order)|
    ensures ReadExports(buf, p, |order|, acc)
         == ReadExports(buf, q, |order[1..]|, acc[order[0] := exports[order[0]]])
  {
    var name := order[0];
    AtSplit(buf, p, EncodeString(name) + ToBE(exports[name], 8), EncodeExports(exports, order[1..]));
    q := ReadExportEntryAt(buf, p, name, exports[name]);
    ReadExportsUnfold(buf, p, |order|, acc, name, p + 8 + |name|, exports[name], q);
  }

  lemma {:induction false} ReadExportsAt(buf: Bytes, p: nat, exports: map<Str, u64>,
                                         order: seq<Str>, acc: map<Str, u64>)
    requires forall k :: 0 <= k < |order| ==> order[k] in exports && ValidStr(order[k])
    requires At(buf, p, EncodeExports(exports, order))
    ensures ReadExports(buf, p, |order|, acc)
         == Ok(Parsed(Overlay(acc, exports, order), p + |EncodeExports(exports, order)|))
    decreases order
  {
    if order == [] {
      ReadExportsNil(buf, p, exports, acc);
    } else {
      var q := ReadExportsCons(buf, p, exports, order, acc);
      var acc' := acc[order[0] := exports[order[0]]];
      ReadExportsAt(buf, q, exports, order[1..], acc');
      OverlayStep(acc, exports, order);
      Link(ReadExports(buf, p, |order|, acc), ReadExports(buf, q, |order[1..]|, acc'),
           Overlay(acc', exports, order[1..]), Overlay(acc, exports, order),
           q + |EncodeExports(exports, order[1..])|, p + |EncodeExports(exports, order)|);
    }
  }

  lemma {:induction false} DistinctCount(order: seq<Str>)
    requires forall j, k :: 0 <= j < k < |order| ==> order[j] != order[k]
    ensures |(set k | 0 <= k < |order| :: order[k])| == |order|
  {
    if order != [] {
      var rest := order[1..];
      DistinctCount(rest);
      var s := set k | 0 <= k < |order| :: order[k];
      var t := set k | 0 <= k < |rest| :: rest[k];
      assert s == {order[0]} + t by {
        forall x | x in s ensures x in {order[0]} + t {
          var k :| 0 <= k < |order| && order[k] == x;
          if k > 0 { assert rest[k - 1] == x; }
        }
        forall x | x in t ensures x in s {
          var k :| 0 <= k < |rest| && rest[k] == x;
          assert order[k + 1] == x;
        }
      }
      forall k | 0 <= k < |rest| ensures rest[k] != order[0] {
        assert rest[k] == order[k + 1];
      }
    }
  }

  /** An enumeration of the keys is as long as the map and overlays it onto the empty map exactly. */
  lemma EnumerationCovers(exports: map<Str, u64>, order: seq<Str>)
    requires Enumerates(order, exports.Keys)
    ensures |order| == |exports|
    ensures Overlay(map[], exports, order) == exports
  {
    var s := set k | 0 <= k < |order| :: order[k];
    assert s == exports.Keys;
    DistinctCount(order);
  }

  lemma ReadHeaderAt(fmt: Format, buf: Bytes)
    requires HasMinor(fmt.verMajor) && At(buf, 0, EncodeHeader(fmt))
    ensures ReadHeader(fmt, buf) == Ok(Parsed((), 8))
  {
    var m := ToBE(fmt.magic, 4);
    var major := ToBE(fmt.verMajor, 2);
    var minor := ToBE(fmt.verMinor, 2);
    AtSplit(buf, 0, m + major, minor);
    AtSplit(buf, 0, m, major);
    ReadU32At(buf, 0, fmt.magic);
    ReadU16At(buf, 4, fmt.verMajor);
    ReadU16At(buf, 6, fmt.verMinor);
  }

  // ---------------------------------------------------------------------------
  // The whole file.


  /** The count field of the pool reads back, and the constants follow it. */
  lemma ReadPoolHead(fmt: Format, buf: Bytes, p: nat, pool: seq<Constant>)
    requires |pool| < U32_LIMIT && At(buf, p, EncodePool(fmt, pool))
    ensures At(buf, p + 4, EncodeConstants(fmt, pool))
    ensures ReadPool(fmt, buf, p) == ReadConstants(fmt, buf, p + 4, |pool|, [])
  {
    CountFits(|pool|, U32_LIMIT);
    AtSplit(buf, p, ToBE(|pool|, 4), EncodeConstants(fmt, pool));
    ReadU32At(buf, p, |pool|);
  }

  lemma ReadPoolAt(fmt: Format, buf: Bytes, p: nat, pool: seq<Constant>) returns (q: nat)
    requires ConstTagsDistinct(fmt.consts) && RegTagsDistinct(fmt.regs)
    requires |pool| < U32_LIMIT && forall k :: 0 <= k < |pool| ==> Encodable(pool[k])
    requires At(buf, p, EncodePool(fmt, pool))
    ensures q == p + |EncodePool(fmt, pool)|
    ensures ReadPool(fmt, buf, p) == Ok(Parsed(pool, q))
  {
    ReadPoolHead(fmt, buf, p, pool);
    ReadConstantsAt(fmt, buf, p + 4, pool, []);
    assert [] + pool == pool;
    q := p + 4 + |EncodeConstants(fmt, pool)|;
    Link(ReadPool(fmt, buf, p), ReadConstants(fmt, buf, p + 4, |pool|, []), [] + pool, pool, q, q);
  }

  /** The count field of the import table reads back, and the names follow it. */
  lemma ReadImportTableHead(buf: Bytes, p: nat, imports: seq<Str>)
    requires |imports| < U64_LIMIT && At(buf, p, EncodeImportTable(imports))
    ensures At(buf, p + 8, EncodeImports(imports))
    ensures ReadImportTable(buf, p) == ReadImports(buf, p + 8, |imports|, [])
  {
    CountFits(|imports|, U64_LIMIT);
    AtSplit(buf, p, ToBE(|imports|, 8), EncodeImports(imports));
    ReadU64At(buf, p, |imports|);
  }

  lemma ReadImportTableAt(buf: Bytes, p: nat, imports: seq<Str>) returns (q: nat)
    requires |imports| < U64_LIMIT && forall k :: 0 <= k < |imports| ==> ValidStr(imports[k])
    requires At(buf, p, EncodeImportTable(imports))
    ensures q == p + |EncodeImportTable(imports)|
    ensures ReadImportTable(buf, p) == Ok(Parsed(imports, q))
  {
    ReadImportTableHead(buf, p, imports);
    ReadImportsAt(buf, p + 8, imports, []);
    assert [] + imports == imports;
    q := p + 8 + |EncodeImports(imports)|;
    Link(ReadImportTable(buf, p), ReadImports(buf, p + 8, |imports|, []), [] + imports, imports, q, q);
  }

  /** The count field of the export table reads back, and the entries follow it. */
  lemma ReadExportTableHead(buf: Bytes, p: nat, exports: map<Str, u64>, order: seq<Str>)
    requires Enumerates(order, exports.Keys)
    requires |exports| < U64_LIMIT && At(buf, p, EncodeExportTable(exports, order))
    ensures At(buf, p + 8, EncodeExports(exports, order))
    ensures ReadExportTable(buf, p) == ReadExports(buf, p + 8, |exports|, map[])
  {
    CountFits(|exports|, U64_LIMIT);
    AtSplit(buf, p, ToBE(|exports|, 8), EncodeExports(exports, order));
    ReadU64At(buf, p, |exports|);
  }

  lemma ReadExportTableAt(buf: Bytes, p: nat, exports: map<Str, u64>, order: seq<Str>)
    returns (q: nat)
    requires |exports| < U64_LIMIT && forall n :: n in exports ==> ValidStr(n)
    requires Enumerates(order, exports.Keys)
    requires At(buf, p, EncodeExportTable(exports, order))
    ensures q == p + |EncodeExportTable(exports, order)|
    ensures ReadExportTable(buf, p) == Ok(Parsed(exports, q))
  {
    ReadExportTableHead(buf, p, exports, order);
    EnumerationCovers(exports, order);
    ReadExportsAt(buf, p + 8, exports, order, map[]);
    q := p + 8 + |EncodeExports(exports, order)|;
    Link(ReadExportTable(buf, p), ReadExports(buf, p + 8, |order|, map[]),
         Overlay(map[], exports, order), exports, q, q);
  }

  lemma ReadBodyUnfold(fmt: Format, arms: Arms, buf: Bytes, p3: nat, p5: nat, p7: nat, p9: nat,
                       h: CodeHolder)
    requires p3 <= |buf| && AllSome(h.instructions)
    requires ReadPool(fmt, buf, p3) == Ok(Parsed(h.constantPool, p5))
    requires ReadImportTable(buf, p5) == Ok(Parsed(h.imports, p7))
    requires ReadExportTable(buf, p7) == Ok(Parsed(h.exports, p9))
    requires ReadInstrs(fmt.regs, arms, buf, p9, []) == Ok([] + Values(h.instructions))
    ensures ReadBody(fmt, arms, buf, p3) == Ok(h)
  {
    assert Wrap([] + Values(h.instructions)) == h.instructions;
  }

  /** The holders the writer can write so that the reader gives them back. */
  predicate RoundTrips(h: CodeHolder) {
    && |h.constantPool| < U32_LIMIT
    && (forall k :: 0 <= k < |h.constantPool| ==> Encodable(h.constantPool[k]))
    && |h.imports| < U64_LIMIT
    && (forall k :: 0 <= k < |h.imports| ==> ValidStr(h.imports[k]))
    && |h.exports| < U64_LIMIT
    && (forall n :: n in h.exports ==> ValidStr(n))
    && AllSome(h.instructions)
  }

  /** Each section of an encoded body reads back, and the next starts where it ends. */
  /** Four sections written one after the other end at the end of the buffer. */
  lemma Layout(buf: Bytes, p: nat, e1: Bytes, e2: Bytes, e3: Bytes, e4: Bytes)
    returns (q1: nat, q2: nat, q3: nat)
    requires At(buf, p, e1 + e2 + e3 + e4) && p + |e1 + e2 + e3 + e4| == |buf|
    ensures q1 == p + |e1| && q2 == q1 + |e2| && q3 == q2 + |e3| && q3 + |e4| == |buf|
    ensures At(buf, p, e1) && At(buf, q1, e2) && At(buf, q2, e3) && At(buf, q3, e4)
  {
    AtSplit(buf, p, e1 + e2 + e3, e4);
    AtSplit(buf, p, e1 + e2, e3);
    AtSplit(buf, p, e1, e2);
    q1, q2, q3 := p + |e1|, p + |e1| + |e2|, p + |e1| + |e2| + |e3|;
  }

  /** The constant pool and the import table read back, one after the other. */
  lemma ReadHeadSectionsAt(fmt: Format, buf: Bytes, p: nat, q5: nat, q7: nat, h: CodeHolder)
    returns (p5: nat, p7: nat)
    requires WellFormed(fmt) && RoundTrips(h)
    requires At(buf, p, EncodePool(fmt, h.constantPool)) && q5 == p + |EncodePool(fmt, h.constantPool)|
    requires At(buf, q5, EncodeImportTable(h.imports)) && q7 == q5 + |EncodeImportTable(h.imports)|
    ensures p5 == q5 && p7 == q7
    ensures ReadPool(fmt, buf, p) == Ok(Parsed(h.constantPool, p5))
    ensures ReadImportTable(buf, p5) == Ok(Parsed(h.imports, p7))
  {
    p5 := ReadPoolAt(fmt, buf, p, h.constantPool);
    p7 := ReadImportTableAt(buf, p5, h.imports);
  }

  /** The export table and the instructions read back, the instructions up to the end. */
  lemma ReadTailSectionsAt(fmt: Format, arms: Arms, buf: Bytes, q7: nat, q9: nat, h: CodeHolder,
                           order: seq<Str>) returns (p9: nat)
    requires WellFormed(fmt) && Selects(arms, fmt.code)
    requires RoundTrips(h) && Enumerates(order, h.exports.Keys)
    requires At(buf, q7, EncodeExportTable(h.exports, order))
    requires q9 == q7 + |EncodeExportTable(h.exports, order)|
    requires At(buf, q9, EncodeInstructions(fmt, h.instructions))
    requires q9 + |EncodeInstructions(fmt, h.instructions)| == |buf|
    ensures p9 == q9
    ensures ReadExportTable(buf, q7) == Ok(Parsed(h.exports, p9))
    ensures ReadInstrs(fmt.regs, arms, buf, p9, []) == Ok([] + Values(h.instructions))
  {
    p9 := ReadExportTableAt(buf, q7, h.exports, order);
    ReadInstrsAt(fmt, arms, buf, p9, h.instructions, []);
  }

  lemma ReadSectionsAt(fmt: Format, arms: Arms, buf: Bytes, p: nat, h: CodeHolder, order: seq<Str>)
    returns (p5: nat, p7: nat, p9: nat)
    requires WellFormed(fmt) && Selects(arms, fmt.code)
    requires RoundTrips(h) && Enumerates(order, h.exports.Keys)
    requires At(buf, p, EncodeBody(fmt, h, order)) && p + |EncodeBody(fmt, h, order)| == |buf|
    ensures p <= |buf| && AllSome(h.instructions)
    ensures ReadPool(fmt, buf, p) == Ok(Parsed(h.constantPool, p5))
    ensures ReadImportTable(buf, p5) == Ok(Parsed(h.imports, p7))
    ensures ReadExportTable(buf, p7) == Ok(Parsed(h.exports, p9))
    ensures ReadInstrs(fmt.regs, arms, buf, p9, []) == Ok([] + Values(h.instructions))
  {
    var eP := EncodePool(fmt, h.constantPool);
    var eI := EncodeImportTable(h.imports);
    var eE := EncodeExportTable(h.exports, order);
    var eX := EncodeInstructions(fmt, h.instructions);
    var q5, q7, q9 := Layout(buf, p, eP, eI, eE, eX);
    p5, p7 := ReadHeadSectionsAt(fmt, buf, p, q5, q7, h);
    p9 := ReadTailSectionsAt(fmt, arms, buf, q7, q9, h, order);
  }

  lemma ReadBodyAt(fmt: Format, arms: Arms, buf: Bytes, p: nat, h: CodeHolder, order: seq<Str>)
    requires WellFormed(fmt) && Selects(arms, fmt.code)
    requires RoundTrips(h) && Enumerates(order, h.exports.Keys)
    requires At(buf, p, EncodeBody(fmt, h, order)) && p + |EncodeBody(fmt, h, order)| == |buf|
    ensures ReadBody(fmt, arms, buf, p) == Ok(h)
  {
    var p5, p7, p9 := ReadSectionsAt(fmt, arms, buf, p, h, order);
    ReadBodyUnfold(fmt, arms, buf, p, p5, p7, p9, h);
  }

  lemma ReadBytecodeUnfold(fmt: Format, buf: Bytes, p: nat, h: CodeHolder)
    requires p <= |buf|
    requires ReadHeader(fmt, buf) == Ok(Parsed((), p)) && ReadBody(fmt, ReaderArms(fmt), buf, p) == Ok(h)
    ensures ReadBytecode(fmt, buf) == Ok(h)
  {
  }

  /** read_bytecode(write_bytecode(h)) == h, for a format whose tags are distinct and
      whose major version carries a minor field, and a holder without Vec constants,
      with strings the reader accepts, counts that fit their fields and no empty
      instruction slot. */
  lemma RoundTrip(fmt: Format, h: CodeHolder, order: seq<Str>)
    requires WellFormed(fmt) && HasMinor(fmt.verMajor)
    requires RoundTrips(h) && Enumerates(order, h.exports.Keys)
    ensures ReadBytecode(fmt, EncodeBytecode(fmt, h, order)) == Ok(h)
  {
    var buf := EncodeBytecode(fmt, h, order);
    var body := EncodeBody(fmt, h, order);
    assert At(buf, 0, EncodeHeader(fmt) + body);
    AtSplit(buf, 0, EncodeHeader(fmt), body);
    ReadHeaderAt(fmt, buf);
    ReaderArmsSelect(fmt);
    ReadBodyAt(fmt, ReaderArms(fmt), buf, 8, h, order);
    ReadBytecodeUnfold(fmt, buf, 8, h);
  }
}
