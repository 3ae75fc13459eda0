/** The decoding rules of the current reader (src/bytecode/codereader.rs) on
    arbitrary input, not only on bytes the writer produced: which headers are
    accepted, which tag bytes are errors, how a boolean and a Vec are read, and
    what the instruction loop does with NOOP and unknown opcode bytes. */
module CodecRules {
  import opened Types
  import opened Primitives
  import opened Format
  import opened Codec

  // ---------------------------------------------------------------------------
  // Header (codereader.rs:161-186).

  /** A buffer whose first four bytes are not the magic number is a missing
      header, whatever follows. */
  lemma MissingMagic(fmt: Format, buf: Bytes)
    requires |buf| >= 4 && FromBE(buf[..4]) != fmt.magic
    ensures ReadHeader(fmt, buf) == Err(MissingHeader)
  {
    assert buf[0..4] == buf[..4];
  }

  /** Majors 1 to 6 carry no minor field: the header is six bytes long, it is
      accepted exactly when the major is the format's, and a rejected one
      reports that major with minor 0. */
  lemma VersionRuleWithoutMinor(fmt: Format, buf: Bytes)
    requires |buf| >= 6 && FromBE(buf[..4]) == fmt.magic && 1 <= FromBE(buf[4..6]) <= 6
    ensures ReadHeader(fmt, buf).Ok? <==> FromBE(buf[4..6]) == fmt.verMajor
    ensures ReadHeader(fmt, buf).Ok? ==> ReadHeader(fmt, buf).value.next == 6
    ensures ReadHeader(fmt, buf).Err? ==>
      ReadHeader(fmt, buf).error.UnsupportedVersion? &&
      ReadHeader(fmt, buf).error.major == FromBE(buf[4..6]) && ReadHeader(fmt, buf).error.minor == 0
  {
    assert buf[0..4] == buf[..4];
  }

  /** Any other major is followed by a u16 minor: the header is eight bytes
      long, it is accepted exactly when the major is the format's and the minor
      is at most the format's, and a rejected one reports both numbers read. */
  lemma VersionRuleWithMinor(fmt: Format, buf: Bytes)
    requires |buf| >= 8 && FromBE(buf[..4]) == fmt.magic && !(1 <= FromBE(buf[4..6]) <= 6)
    ensures ReadHeader(fmt, buf).Ok? <==>
      FromBE(buf[4..6]) == fmt.verMajor && FromBE(buf[6..8]) <= fmt.verMinor
    ensures ReadHeader(fmt, buf).Ok? ==> ReadHeader(fmt, buf).value.next == 8
    ensures ReadHeader(fmt, buf).Err? ==>
      ReadHeader(fmt, buf).error.UnsupportedVersion? &&
      ReadHeader(fmt, buf).error.major == FromBE(buf[4..6]) &&
      ReadHeader(fmt, buf).error.minor == FromBE(buf[6..8])
  {
    assert buf[0..4] == buf[..4];
  }

  /** A header cut short of the fields its major calls for is an end-of-file error. */
  lemma ShortHeader(fmt: Format, buf: Bytes)
    requires |buf| < 4 ||
      (FromBE(buf[..4]) == fmt.magic &&
       (|buf| < 6 || (!(1 <= FromBE(buf[4..6]) <= 6) && |buf| < 8)))
    ensures ReadHeader(fmt, buf) == Err(UnexpectedEof)
  {
    if |buf| >= 4 {
      assert buf[0..4] == buf[..4];
    }
  }

  // ---------------------------------------------------------------------------
  // Register fields (codereader.rs:47-89).

  function LocationBytes(t: RegTags): set<u8> {
    {t.locConstant, t.locAccumulator, t.locGlobal, t.locLocal}
  }

  function ReferenceBytes(t: RegTags): set<u8> {
    {t.refAsIs, t.refDereference}
  }

  /** A location byte is read exactly when it is one of the four LOC_* values;
      any other byte is an error naming it, and a missing byte is end of file. */
  lemma LocationByteRule(t: RegTags, buf: Bytes, pos: nat)
    ensures ReadRegLoc(t, buf, pos).Ok? <==> pos < |buf| && buf[pos] in LocationBytes(t)
    ensures pos < |buf| && buf[pos] !in LocationBytes(t) ==>
      ReadRegLoc(t, buf, pos) == Err(BadLocation(buf[pos]))
    ensures pos >= |buf| ==> ReadRegLoc(t, buf, pos) == Err(UnexpectedEof)
  {
  }

  /** With distinct LOC_* bytes, each byte reads as its own location. */
  lemma LocationByteValues(t: RegTags, buf: Bytes, pos: nat)
    requires RegTagsDistinct(t) && pos < |buf|
    ensures buf[pos] == t.locConstant ==> ReadRegLoc(t, buf, pos) == Ok(Parsed(ConstantPool, pos + 1))
    ensures buf[pos] == t.locAccumulator ==> ReadRegLoc(t, buf, pos) == Ok(Parsed(Accumulator, pos + 1))
    ensures buf[pos] == t.locGlobal ==> ReadRegLoc(t, buf, pos) == Ok(Parsed(Global, pos + 1))
    ensures buf[pos] == t.locLocal ==> ReadRegLoc(t, buf, pos) == Ok(Parsed(Local, pos + 1))
  {
  }

  /** A reference byte is read exactly when it is REF_AS_IS or REF_DEREFERENCE;
      any other byte is an error naming it, and a missing byte is end of file. */
  lemma ReferenceByteRule(t: RegTags, buf: Bytes, pos: nat)
    ensures ReadRegRef(t, buf, pos).Ok? <==> pos < |buf| && buf[pos] in ReferenceBytes(t)
    ensures pos < |buf| && buf[pos] !in ReferenceBytes(t) ==>
      ReadRegRef(t, buf, pos) == Err(BadReference(buf[pos]))
    ensures pos >= |buf| ==> ReadRegRef(t, buf, pos) == Err(UnexpectedEof)
  {
  }

  // ---------------------------------------------------------------------------
  // Constants (codereader.rs:91-138).

  function ConstantTags(t: ConstTags): set<u8> {
    {t.tagInt, t.tagDouble, t.tagString, t.tagBoolean, t.tagAddress, t.tagVec}
  }

  /** A boolean constant is false for a zero byte and true for any other byte. */
  lemma BooleanRule(fmt: Format, buf: Bytes, pos: nat)
    requires ConstTagsDistinct(fmt.consts)
    requires pos + 2 <= |buf| && buf[pos] == fmt.consts.tagBoolean
    ensures ReadConstant(fmt, buf, pos) == Ok(Parsed(Boolean(buf[pos + 1] != 0), pos + 2))
  {
  }

  /** A Vec constant is a u8 count followed by that many constants: it is read
      exactly when those constants are, it holds them in order, and a failure
      among them is the failure of the Vec. */
  lemma VecRule(fmt: Format, buf: Bytes, pos: nat)
    requires ConstTagsDistinct(fmt.consts)
    requires pos + 2 <= |buf| && buf[pos] == fmt.consts.tagVec
    ensures var es := ReadConstants(fmt, buf, pos + 2, buf[pos + 1] as nat, []);
      (ReadConstant(fmt, buf, pos).Ok? <==> es.Ok?) &&
      (es.Ok? ==> |es.value.value| == buf[pos + 1] as nat &&
                  ReadConstant(fmt, buf, pos) == Ok(Parsed(Vec(es.value.value), es.value.next))) &&
      (es.Err? ==> ReadConstant(fmt, buf, pos) == Err(es.error))
  {
  }

  /** A Vec tag with no count byte after it is an end-of-file error. */
  lemma VecWithoutCount(fmt: Format, buf: Bytes)
    requires ConstTagsDistinct(fmt.consts)
    requires |buf| >= 1 && buf[|buf| - 1] == fmt.consts.tagVec
    ensures ReadConstant(fmt, buf, |buf| - 1) == Err(UnexpectedEof)
  {
  }

  /** A tag byte that is none of the CONST_* values is an error naming that byte. */
  lemma UnknownConstantTag(fmt: Format, buf: Bytes, pos: nat)
    requires pos < |buf| && buf[pos] !in ConstantTags(fmt.consts)
    ensures ReadConstant(fmt, buf, pos) == Err(BadConstantTag(buf[pos]))
  {
  }

  // ---------------------------------------------------------------------------
  // The instruction loop (codereader.rs:210-404).

  /** A NOOP byte is consumed and adds no instruction. */
  lemma NoopAddsNothing(t: RegTags, arms: Arms, buf: Bytes, pos: nat, acc: seq<Instruction>)
    requires pos < |buf| && FindOp(arms, buf[pos]) == Some(OpNoop)
    ensures ReadInstrs(t, arms, buf, pos, acc) == ReadInstrs(t, arms, buf, pos + 1, acc)
  {
  }

  /** A run of NOOP bytes is read past without adding anything, so a stream
      that ends in NOOPs decodes to what was read before them. */
  lemma {:induction false} ReadNoops(t: RegTags, arms: Arms, noop: u8, buf: Bytes, p: nat, q: nat,
                                     acc: seq<Instruction>)
    requires FindOp(arms, noop) == Some(OpNoop)
    requires p <= q <= |buf| && forall k :: p <= k < q ==> buf[k] == noop
    ensures ReadInstrs(t, arms, buf, p, acc) == ReadInstrs(t, arms, buf, q, acc)
    ensures q == |buf| ==> ReadInstrs(t, arms, buf, p, acc) == Ok(acc)
    decreases q - p
  {
    if p < q {
      NoopAddsNothing(t, arms, buf, p, acc);
      ReadNoops(t, arms, noop, buf, p + 1, q, acc);
    }
  }

  /** In the reader's own match, NOOP is the first arm, so its byte always selects it. */
  lemma NoopArm(fmt: Format)
    ensures FindOp(ArmsOf(fmt.code, READER_OPS), fmt.code(OpNoop)) == Some(OpNoop)
  {
  }

  /** An opcode byte that no arm carries stops the loop with an error naming it,
      whatever follows. */
  lemma UnknownOpcode(t: RegTags, arms: Arms, buf: Bytes, pos: nat, acc: seq<Instruction>)
    requires pos < |buf| && FindOp(arms, buf[pos]).None?
    ensures ReadInstrs(t, arms, buf, pos, acc) == Err(BadOpcode(buf[pos]))
  {
  }
}
