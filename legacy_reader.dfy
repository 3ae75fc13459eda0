/** The older reader of src/api/codereader.rs in the form the source gives it: a
    cursor that advances field by field, a `for` loop over the pool count and a
    `loop` over the instructions that pushes what it decodes. Each method is
    proved to agree with the function of the same name in legacy_codec.dfy, so
    the decoding rules and the round trip proved there hold of it. */
module LegacyReader {
  import opened Types
  import opened Format
  import opened LegacyFormat
  import LegacyCodec
  import Codec
  import CodeReader

  /** The magic number, then the version, which must equal VERSION
      (codereader.rs:98-112). */
  method ReadHeader(cur: CodeReader.Cursor) returns (r: Result<(), Codec.CodecError>)
    requires cur.Valid() && cur.pos == 0
    modifies cur
    ensures cur.Valid() && CodeReader.Agrees(r, LegacyCodec.ReadHeader(cur.buf), cur.pos)
  {
    var magic :- cur.ReadU32();
    if magic != MAGIC_NUMBER {
      return Err(Codec.MissingHeader);
    }
    var ver :- cur.ReadU16();
    if ver != VERSION {
      return Err(Codec.UnsupportedVersion(ver, 0));
    }
    return Ok(());
  }

  /** One arm of the pool loop: the tag byte, then its payload; a boolean is any
      non-zero byte and a tag with no arm is an error (codereader.rs:116-171). */
  method ReadConstant(cur: CodeReader.Cursor) returns (r: Result<Constant, Codec.CodecError>)
    requires cur.Valid()
    modifies cur
    ensures cur.Valid() && CodeReader.Agrees(r, LegacyCodec.ReadConstant(cur.buf, old(cur.pos)), cur.pos)
  {
    var ctype :- cur.ReadU8();
    if ctype == CONST_INT {
      var v :- cur.ReadI64();
      return Ok(Int(v));
    } else if ctype == CONST_DOUBLE {
      var v :- cur.ReadU64();
      return Ok(Double(v));
    } else if ctype == CONST_STRING {
      var s :- CodeReader.ReadString(cur);
      return Ok(String(s));
    } else if ctype == CONST_BOOLEAN {
      var v :- cur.ReadU8();
      return Ok(Boolean(v != 0x00));
    } else if ctype == CONST_ADDRESS {
      var a :- CodeReader.ReadRegister(cur, REGS);
      return Ok(Address(a));
    }
    return Err(Codec.BadConstantTag(ctype));
  }

  /** The pool: a u32 count, then that many constants pushed in order
      (codereader.rs:114-172). */
  method ReadPool(cur: CodeReader.Cursor) returns (r: Result<seq<Constant>, Codec.CodecError>)
    requires cur.Valid()
    modifies cur
    ensures cur.Valid() && CodeReader.Agrees(r, LegacyCodec.ReadPool(cur.buf, old(cur.pos)), cur.pos)
  {
    ghost var goal := LegacyCodec.ReadPool(cur.buf, cur.pos);
    var clen :- cur.ReadU32();
    var pool: seq<Constant> := [];
    var i := 0;
    ghost var left: nat := clen;
    while i < clen
      invariant cur.Valid() && i <= clen && left == clen - i
      invariant goal == LegacyCodec.ReadConstants(cur.buf, cur.pos, left, pool)
    {
      ghost var here := cur.pos;
      var c :- ReadConstant(cur);
      ConstantsStep(cur.buf, here, left, pool, c, cur.pos);
      pool := pool + [c];
      i := i + 1;
      left := left - 1;
    }
    return Ok(pool);
  }

  /** The instruction loop: it stops at the end of the buffer, skips a NOOP and
      pushes every other instruction it decodes (codereader.rs:175-328). */
  method ReadInstructions(cur: CodeReader.Cursor, arms: Arms)
    returns (r: Result<seq<Instruction>, Codec.CodecError>)
    requires cur.Valid()
    modifies cur
    ensures r == Codec.ReadInstrs(REGS, arms, cur.buf, old(cur.pos), [])
  {
    ghost var goal := Codec.ReadInstrs(REGS, arms, cur.buf, cur.pos, []);
    var instructions: seq<Instruction> := [];
    while cur.pos != |cur.buf|
      invariant cur.Valid()
      invariant goal == Codec.ReadInstrs(REGS, arms, cur.buf, cur.pos, instructions)
      decreases |cur.buf| - cur.pos
    {
      ghost var here := cur.pos;
      var i :- CodeReader.ReadInstruction(cur, REGS, arms);
      InstrsStep(arms, cur.buf, here, instructions, i, cur.pos);
      if i.Some? {
        instructions := instructions + [i.value];
      }
    }
    return Ok(instructions);
  }

  /** read_bytecode (codereader.rs:87-331): the header, the pool and the
      instructions; the holder it fills has no imports. */
  method ReadBytecode(buf: Bytes) returns (r: Result<LegacyCodec.Holder, Codec.CodecError>)
    ensures r == LegacyCodec.ReadBytecode(buf)
  {
    var cur := new CodeReader.Cursor(buf);
    var _ :- ReadHeader(cur);
    var pool :- ReadPool(cur);
    var instructions :- ReadInstructions(cur, ARMS);
    return Ok(LegacyCodec.Holder(pool, [], instructions));
  }

  // ---------------------------------------------------------------------------
  // One pass of each loop, stated on the reader functions.

  lemma ConstantsStep(buf: Bytes, p: nat, count: nat, acc: seq<Constant>, c: Constant, q: nat)
    requires p <= |buf| && count > 0
    requires LegacyCodec.ReadConstant(buf, p).Ok?
    requires LegacyCodec.ReadConstant(buf, p).value.value == c
    requires LegacyCodec.ReadConstant(buf, p).value.next == q
    ensures q <= |buf|
    ensures LegacyCodec.ReadConstants(buf, p, count, acc) == LegacyCodec.ReadConstants(buf, q, count - 1, acc + [c])
  {
  }

  lemma InstrsStep(arms: Arms, buf: Bytes, p: nat, acc: seq<Instruction>, i: Option<Instruction>, q: nat)
    requires p < |buf|
    requires Codec.ReadInstruction(REGS, arms, buf, p).Ok?
    requires Codec.ReadInstruction(REGS, arms, buf, p).value.value == i
    requires Codec.ReadInstruction(REGS, arms, buf, p).value.next == q
    ensures q <= |buf|
    ensures Codec.ReadInstrs(REGS, arms, buf, p, acc)
         == Codec.ReadInstrs(REGS, arms, buf, q, if i.Some? then acc + [i.value] else acc)
  {
  }
}
