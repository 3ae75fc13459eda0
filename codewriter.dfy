/** The writer of src/bytecode/codewriter.rs in the form the source gives it:
    helpers that append to one growing `Vec<u8>`, and loops over the constant
    pool, the imports, the exports and the instructions. Every method is proved
    to append exactly the bytes of the encoder function of the same name in
    codec.dfy, so the round trip proved there about those functions holds of
    what this writer produces. */
module CodeWriter {
  import opened Types
  import opened Primitives
  import opened Format
  import Codec

  /** The `Vec<u8>` the writer appends to, with byteorder's big-endian writers. */
  class ByteBuf {
    var bytes: Bytes

    constructor ()
      ensures bytes == []
    {
      bytes := [];
    }

    /** `push` and `write_u8`. */
    method Push(b: u8)
      modifies this
      ensures bytes == old(bytes) + [b]
    {
      bytes := bytes + [b];
    }

    /** `write_all`. */
    method WriteAll(s: Bytes)
      modifies this
      ensures bytes == old(bytes) + s
    {
      bytes := bytes + s;
    }

    /** `write_u16`, `write_u32` and `write_u64` with `BigEndian`: n bytes, most significant first. */
    method WriteBE(v: nat, n: nat)
      requires v < Pow256(n)
      modifies this
      ensures bytes == old(bytes) + ToBE(v, n)
    {
      bytes := bytes + ToBE(v, n);
    }
  }

  /** write_string: the byte length as a u64, then the bytes (codewriter.rs:19-24). */
  method WriteString(w: ByteBuf, s: Str)
    modifies w
    ensures w.bytes == old(w.bytes) + Codec.EncodeString(s)
  {
    Pow256Values();
    w.WriteBE(|s| % U64_LIMIT, 8);
    w.WriteAll(s);
    Assoc(old(w.bytes), ToBE(|s| % U64_LIMIT, 8), s);
  }

  /** write_reg_loc (codewriter.rs:32-40). */
  method WriteRegLoc(w: ByteBuf, t: RegTags, l: RegisterLocation)
    modifies w
    ensures w.bytes == old(w.bytes) + [Codec.EncodeRegLoc(t, l)]
  {
    var b := match l
      case ConstantPool => t.locConstant
      case Accumulator => t.locAccumulator
      case Global => t.locGlobal
      case Local => t.locLocal;
    w.Push(b);
  }

  /** write_register: the index as a u32, then the location byte (codewriter.rs:26-30). */
  method WriteRegister(w: ByteBuf, t: RegTags, r: Register)
    modifies w
    ensures w.bytes == old(w.bytes) + Codec.EncodeRegister(t, r)
  {
    Pow256Values();
    w.WriteBE(r.index, 4);
    WriteRegLoc(w, t, r.loc);
    Assoc(old(w.bytes), ToBE(r.index, 4), [Codec.EncodeRegLoc(t, r.loc)]);
  }

  /** write_reg_ref (codewriter.rs:42-47). */
  method WriteRegRef(w: ByteBuf, t: RegTags, rr: RegisterReference)
    modifies w
    ensures w.bytes == old(w.bytes) + [Codec.EncodeRegRef(t, rr)]
  {
    var b := match rr
      case AsIs => t.refAsIs
      case Dereference => t.refDereference;
    w.Push(b);
  }

  /** write_constant: the tag byte, then the payload; a Vec is its tag and then
      each element in turn, with no count (codewriter.rs:49-82). */
  method WriteConstant(w: ByteBuf, fmt: Format, c: Constant)
    modifies w
    ensures w.bytes == old(w.bytes) + Codec.EncodeConstant(fmt, c)
    decreases c
  {
    var ct := fmt.consts;
    Pow256Values();
    match c
    case Int(v) =>
      w.Push(ct.tagInt);
      w.WriteBE(I64Bits(v), 8);
      Assoc(old(w.bytes), [ct.tagInt], ToBE(I64Bits(v), 8));
    case Double(bits) =>
      w.Push(ct.tagDouble);
      w.WriteBE(bits, 8);
      Assoc(old(w.bytes), [ct.tagDouble], ToBE(bits, 8));
    case String(s) =>
      w.Push(ct.tagString);
      WriteString(w, s);
      Assoc(old(w.bytes), [ct.tagString], Codec.EncodeString(s));
    case Boolean(b) =>
      w.Push(ct.tagBoolean);
      w.Push(if b then 1 else 0);
      Assoc(old(w.bytes), [ct.tagBoolean], [if b then 1 else 0]);
    case Address(r) =>
      w.Push(ct.tagAddress);
      WriteRegister(w, fmt.regs, r);
      Assoc(old(w.bytes), [ct.tagAddress], Codec.EncodeRegister(fmt.regs, r));
    case Vec(elems) =>
      w.Push(ct.tagVec);
      WriteElements(w, fmt, elems);
      Assoc(old(w.bytes), [ct.tagVec], Codec.EncodeConstants(fmt, elems));
  }

  /** The `for obj in val` loop of the Vec arm: each element in turn. */
  method WriteElements(w: ByteBuf, fmt: Format, elems: seq<Constant>)
    modifies w
    ensures w.bytes == old(w.bytes) + Codec.EncodeConstants(fmt, elems)
    decreases elems
  {
    ghost var start := w.bytes;
    ghost var done: Bytes := [];
    var i := 0;
    while i < |elems|
      invariant i <= |elems| && done == Codec.EncodeConstants(fmt, elems[..i])
      invariant w.bytes == start + done
    {
      WriteConstant(w, fmt, elems[i]);
      Assoc(start, done, Codec.EncodeConstant(fmt, elems[i]));
      EncodeConstantsSnoc(fmt, elems[..i], elems[i]);
      TakeNext(elems, i);
      done := done + Codec.EncodeConstant(fmt, elems[i]);
      i := i + 1;
    }
    TakeAll(elems, i);
  }

  /** One instruction: its opcode byte, then its operands in declaration order
      (codewriter.rs:123-256). The arms are grouped by operand shape. */
  method WriteInstruction(w: ByteBuf, fmt: Format, i: Instruction)
    modifies w
    ensures w.bytes == old(w.bytes) + Codec.EncodeInstruction(fmt, i)
  {
    w.Push(fmt.code(OpcodeOf(i)));
    WriteOperands(w, fmt.regs, i);
  }

  method WriteOperands(w: ByteBuf, t: RegTags, i: Instruction)
    modifies w
    ensures w.bytes == old(w.bytes) + Codec.EncodeOperands(t, i)
  {
    Pow256Values();
    if i.Alloc? || i.Free? {
      w.WriteBE(if i.Alloc? then i.size else i.count, 4);
    } else if i.FrameAlloc? || i.FrameFree? {
      w.WriteBE(i.size, 4);
      WriteRegLoc(w, t, i.loc);
    } else if i.Jump? {
      w.WriteBE(I64Bits(i.offset), 8);
    } else if i.Call? {
      w.WriteBE(i.target, 8);
    } else if i.ExtCall? {
      w.WriteBE(i.id, 8);
    } else if i.Mov? || i.Cpy? || i.Ref? {
      WriteMoveOperands(w, t, i.dst, i.dstRef, i.src, i.srcRef);
    } else if i.StackPush? || i.StackMov? {
      WriteRegister(w, t, i.reg);
      WriteRegRef(w, t, i.rref);
    } else if i.Add? || i.Sub? || i.Mul? || i.Div? || i.Mod? {
      WriteRegister(w, t, i.dst);
      WriteRegister(w, t, i.a);
      WriteRegister(w, t, i.b);
    } else if i.Equal? || i.NotEqual? || i.Greater? || i.Less? || i.GreaterEqual? || i.LessEqual? {
      WriteRegister(w, t, i.a);
      WriteRegister(w, t, i.b);
    }
  }

  /** The operands of mov, cpy and ref: register, reference, register, reference. */
  method WriteMoveOperands(w: ByteBuf, t: RegTags, a: Register, ar: RegisterReference,
                           b: Register, br: RegisterReference)
    modifies w
    ensures w.bytes == old(w.bytes) + Codec.EncodeMoveOperands(t, a, ar, b, br)
  {
    WriteRegister(w, t, a);
    WriteRegRef(w, t, ar);
    WriteRegister(w, t, b);
    WriteRegRef(w, t, br);
  }

  /** The magic number and the two version fields (codewriter.rs:97-101). */
  method WriteHeader(w: ByteBuf, fmt: Format)
    modifies w
    ensures w.bytes == old(w.bytes) + Codec.EncodeHeader(fmt)
  {
    Pow256Values();
    w.WriteBE(fmt.magic, 4);
    w.WriteBE(fmt.verMajor, 2);
    w.WriteBE(fmt.verMinor, 2);
  }

  /** The constant pool: its length `as u32`, then each constant (codewriter.rs:103-107). */
  method WritePool(w: ByteBuf, fmt: Format, pool: seq<Constant>)
    modifies w
    ensures w.bytes == old(w.bytes) + Codec.EncodePool(fmt, pool)
  {
    Pow256Values();
    w.WriteBE(|pool| % U32_LIMIT, 4);
    WriteElements(w, fmt, pool);
    Assoc(old(w.bytes), ToBE(|pool| % U32_LIMIT, 4), Codec.EncodeConstants(fmt, pool));
  }

  /** The imports table: its length as a u64, then each name (codewriter.rs:109-113). */
  method WriteImportTable(w: ByteBuf, imports: seq<Str>)
    modifies w
    ensures w.bytes == old(w.bytes) + Codec.EncodeImportTable(imports)
  {
    Pow256Values();
    w.WriteBE(|imports| % U64_LIMIT, 8);
    ghost var start := w.bytes;
    ghost var done: Bytes := [];
    var i := 0;
    while i < |imports|
      invariant i <= |imports| && done == Codec.EncodeImports(imports[..i])
      invariant w.bytes == start + done
    {
      WriteString(w, imports[i]);
      Assoc(start, done, Codec.EncodeString(imports[i]));
      EncodeImportsSnoc(imports[..i], imports[i]);
      TakeNext(imports, i);
      done := done + Codec.EncodeString(imports[i]);
      i := i + 1;
    }
    TakeAll(imports, i);
    Assoc(old(w.bytes), ToBE(|imports| % U64_LIMIT, 8), Codec.EncodeImports(imports));
  }

  /** The exports table: its size as a u64, then each (name, position) pair in
      the order the map yields them, which is `order` (codewriter.rs:115-120). */
  method WriteExportTable(w: ByteBuf, exports: map<Str, u64>, order: seq<Str>)
    requires Codec.Enumerates(order, exports.Keys)
    modifies w
    ensures w.bytes == old(w.bytes) + Codec.EncodeExportTable(exports, order)
  {
    Pow256Values();
    w.WriteBE(|exports| % U64_LIMIT, 8);
    ghost var start := w.bytes;
    ghost var done: Bytes := [];
    var i := 0;
    while i < |order|
      invariant i <= |order| && done == Codec.EncodeExports(exports, order[..i])
      invariant w.bytes == start + done
    {
      var name := order[i];
      ghost var entry := Codec.EncodeString(name) + ToBE(exports[name], 8);
      WriteExport(w, name, exports[name]);
      Assoc(start, done, entry);
      EncodeExportsSnoc(exports, order[..i], name);
      TakeNext(order, i);
      done := done + entry;
      i := i + 1;
    }
    TakeAll(order, i);
    Assoc(old(w.bytes), ToBE(|exports| % U64_LIMIT, 8), Codec.EncodeExports(exports, order));
  }

  /** One export entry: the name, then the position as a u64 (codewriter.rs:118-119). */
  method WriteExport(w: ByteBuf, name: Str, at: u64)
    modifies w
    ensures w.bytes == old(w.bytes) + (Codec.EncodeString(name) + ToBE(at, 8))
  {
    Pow256Values();
    WriteString(w, name);
    w.WriteBE(at, 8);
    Assoc(old(w.bytes), Codec.EncodeString(name), ToBE(at, 8));
  }

  /** The instructions, one after the other; `unwrap` panics on an empty slot,
      hence the precondition (codewriter.rs:122-257). */
  method WriteInstructions(w: ByteBuf, fmt: Format, instrs: seq<Option<Instruction>>)
    requires Codec.AllSome(instrs)
    modifies w
    ensures w.bytes == old(w.bytes) + Codec.EncodeInstructions(fmt, instrs)
  {
    ghost var start := w.bytes;
    ghost var done: Bytes := [];
    var i := 0;
    while i < |instrs|
      invariant i <= |instrs| && done == Codec.EncodeInstructions(fmt, instrs[..i])
      invariant w.bytes == start + done
    {
      WriteInstruction(w, fmt, instrs[i].value);
      Assoc(start, done, Codec.EncodeInstruction(fmt, instrs[i].value));
      EncodeInstructionsSnoc(fmt, instrs[..i], instrs[i].value);
      TakeNext(instrs, i);
      done := done + Codec.EncodeInstruction(fmt, instrs[i].value);
      i := i + 1;
    }
    TakeAll(instrs, i);
  }

  /** write_bytecode: header, constant pool, imports, exports, instructions
      (codewriter.rs:94-260). Writing into a `Vec<u8>` never fails, so the
      `io::Error` of the source's result never arises. */
  method WriteBytecode(fmt: Format, code: Codec.CodeHolder, order: seq<Str>) returns (out: Bytes)
    requires Codec.AllSome(code.instructions) && Codec.Enumerates(order, code.exports.Keys)
    ensures out == Codec.EncodeBytecode(fmt, code, order)
  {
    var w := new ByteBuf();
    WriteHeader(w, fmt);
    assert w.bytes == Codec.EncodeHeader(fmt);
    ghost var eP := Codec.EncodePool(fmt, code.constantPool);
    ghost var eI := Codec.EncodeImportTable(code.imports);
    ghost var eE := Codec.EncodeExportTable(code.exports, order);
    ghost var eX := Codec.EncodeInstructions(fmt, code.instructions);
    WritePool(w, fmt, code.constantPool);
    WriteImportTable(w, code.imports);
    WriteExportTable(w, code.exports, order);
    WriteInstructions(w, fmt, code.instructions);
    out := w.bytes;
    BodyAssoc(Codec.EncodeHeader(fmt), eP, eI, eE, eX);
  }

  // ---------------------------------------------------------------------------
  // Each loop appends one encoding to those of the elements before it.

  lemma TakeNext<T>(s: seq<T>, i: nat)
    requires i < |s|
    ensures s[..i + 1] == s[..i] + [s[i]]
  {
  }

  lemma TakeAll<T>(s: seq<T>, i: nat)
    requires i == |s|
    ensures s[..i] == s
  {
  }

  lemma Assoc(a: Bytes, b: Bytes, c: Bytes)
    ensures a + b + c == a + (b + c)
  {
  }

  /** Appending the sections one by one gives the header followed by the body. */
  lemma BodyAssoc(h: Bytes, p: Bytes, i: Bytes, e: Bytes, x: Bytes)
    ensures h + p + i + e + x == h + (p + i + e + x)
  {
    Assoc(h, p, i);
    Assoc(h, p + i, e);
    Assoc(h, p + i + e, x);
  }

  lemma SnocEmpty<T>(x: T)
    ensures [] + [x] == [x] && [x][1..] == []
  {
  }

  lemma SnocTail<T>(s: seq<T>, x: T)
    requires s != []
    ensures (s + [x])[0] == s[0] && (s + [x])[1..] == s[1..] + [x]
  {
  }

  lemma {:induction false} EncodeConstantsSnoc(fmt: Format, cs: seq<Constant>, c: Constant)
    ensures Codec.EncodeConstants(fmt, cs + [c])
         == Codec.EncodeConstants(fmt, cs) + Codec.EncodeConstant(fmt, c)
  {
    if cs == [] {
      SnocEmpty(c);
    } else {
      SnocTail(cs, c);
      EncodeConstantsSnoc(fmt, cs[1..], c);
      Assoc(Codec.EncodeConstant(fmt, cs[0]), Codec.EncodeConstants(fmt, cs[1..]),
            Codec.EncodeConstant(fmt, c));
    }
  }

  lemma {:induction false} EncodeImportsSnoc(imports: seq<Str>, s: Str)
    ensures Codec.EncodeImports(imports + [s]) == Codec.EncodeImports(imports) + Codec.EncodeString(s)
  {
    if imports == [] {
      SnocEmpty(s);
    } else {
      SnocTail(imports, s);
      EncodeImportsSnoc(imports[1..], s);
      Assoc(Codec.EncodeString(imports[0]), Codec.EncodeImports(imports[1..]), Codec.EncodeString(s));
    }
  }

  lemma {:induction false} EncodeExportsSnoc(exports: map<Str, u64>, order: seq<Str>, name: Str)
    requires forall k :: 0 <= k < |order| ==> order[k] in exports
    requires name in exports
    ensures Codec.EncodeExports(exports, order + [name])
         == Codec.EncodeExports(exports, order) + (Codec.EncodeString(name) + ToBE(exports[name], 8))
  {
    if order == [] {
      SnocEmpty(name);
    } else {
      SnocTail(order, name);
      EncodeExportsSnoc(exports, order[1..], name);
      var head := Codec.EncodeString(order[0]) + ToBE(exports[order[0]], 8);
      Assoc(head, Codec.EncodeExports(exports, order[1..]),
            Codec.EncodeString(name) + ToBE(exports[name], 8));
    }
  }

  lemma {:induction false} EncodeInstructionsSnoc(fmt: Format, instrs: seq<Option<Instruction>>,
                                                  i: Instruction)
    requires Codec.AllSome(instrs)
    ensures Codec.AllSome(instrs + [Some(i)])
    ensures Codec.EncodeInstructions(fmt, instrs + [Some(i)])
         == Codec.EncodeInstructions(fmt, instrs) + Codec.EncodeInstruction(fmt, i)
  {
    if instrs == [] {
      SnocEmpty(Some(i));
    } else {
      SnocTail(instrs, Some(i));
      EncodeInstructionsSnoc(fmt, instrs[1..], i);
      Assoc(Codec.EncodeInstruction(fmt, instrs[0].value), Codec.EncodeInstructions(fmt, instrs[1..]),
            Codec.EncodeInstruction(fmt, i));
    }
  }
}
