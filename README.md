# Resurgence register VM, modelled in Dafny

Resurgence is a register-based virtual machine written in Rust. This project
models its core and proves properties of the model:

- the bytecode format (`src/bytecode/`), as a pair of functions per section
  (reader and writer over a byte string) and as the source's own
  cursor-driven reader and growing-buffer writer, with the round trip
  `read_bytecode(write_bytecode(h)) == h` proved under the conditions the
  source actually needs;
- the older format of `src/api/codereader.rs` and `src/api/codewriter.rs`
  with its concrete byte values (`src/api/parser_constants.rs`), its own
  round trip, and the ways it loses information;
- the value arithmetic of `Constant` (`src/objects/constant.rs`): checked
  `i64` arithmetic, Rust's truncating `/` and `%`, address offsets that wrap
  at 2^32;
- the interpreter (`src/internal/interpreter/`): the register utilities, the
  `mov`, `cpy`, `ref`, `stack_push`, arithmetic and comparison instructions,
  import resolution and the dispatch loop of `execute_instruction`, once as
  functions from state to state (module `Machine`) and once as a class whose
  methods update their fields in place (module `Interp`), each method proved
  to agree with the function;
- the value stack handed to host functions (`src/ext_func/resurgence_state.rs`),
  the error record (`src/objects/resurgence_error.rs`), the three runtime seals
  (`src/internal/runtime_seal.rs`, `src/internal/cardinal.rs`,
  `src/internal/runtime_seal/mod.rs`) and the code builders (`src/codegen/`,
  `src/api/code_gen/`, `src/api/level_1/`).

Files: `types.dfy` (shared data types), `primitives.dfy` (big-endian numbers,
UTF-8, decimal text), `format.dfy` (the tag bytes of the current format, as a
parameter), `codec.dfy`, `codereader.dfy`, `codewriter.dfy`,
`codec_roundtrip.dfy`, `codec_rules.dfy` (current format), `legacy_format.dfy`,
`legacy_codec.dfy`, `legacy_reader.dfy`, `legacy_writer.dfy`,
`legacy_roundtrip.dfy` (older format), `constant_ops.dfy`, `machine.dfy`,
`machine_props.dfy`, `engine_props.dfy`, `interp.dfy`, `ext_state.dfy`,
`errors.dfy`, `seals.dfy`, `codegen.dfy`.

How the model treats the source's failure modes: an `io::Error` or a
`ResurgenceError` returned by the source is an `Err` of a `Result`; a
`panic!`, an `unwrap` of `None` or an unchecked index is a precondition of the
member that models it. In the dispatch loop, which runs arbitrary programs, the
panics are checked and end the run with `Panicked`.

Several interpreter sources do not type-check as written, and the model takes
one reading at each of these places:

- `mov_global` and `cpy_global` return `Result<Constant, ResurgenceError>`
  (`utils/mod.rs:14,32`). Yet `mov.rs:34-47` and `cpy.rs:32` match that result
  against `Constant` patterns, and `mov.rs:67` and `cpy.rs:63,80` store
  `Some(self.mov_global(..))` or `Some(self.cpy_global(..))` into a register.
  The model reads each of these as `self.mov_global(..)?` (or `cpy_global`):
  an out-of-bounds or empty global is returned as the instruction's error and
  nothing is stored (`Machine.MovCase`, `Machine.CpyCase`).
- `execution_engine.rs:46,51` test `if self.equal(..)` and
  `if self.not_equal(..)`, whose type is `Result<bool, ResurgenceError>`
  (`cmp.rs:8,30`). The model reads them as `self.equal(..)?`: `Ok(true)` skips
  the next instruction, `Ok(false)` goes on, and an error ends the run as
  `Fault` with that error kind (`Machine.Compare`).
- The `Interpreter` struct (`interpreter/mod.rs:8-21`) declares no
  `code_holder`, `rust_functions` or `resolved_imports`, though
  `execution_engine.rs`, `imports.rs` and `resolve_imports.rs` use them. The
  model adds them: the program and its imports are the fixed `Machine.Env`, and
  the registrations, the resolved-import table and the resolved flag are fields
  of `Machine.State` and of `Interp.Interpreter`.
- `get_constants` (`math.rs:6-28`) returns `(Constant, Constant)` but builds
  the pair from `cpy_global`, which returns a `Result` (`utils/mod.rs:32`). The
  model reads it as `cpy_global(..)?`: a missing or empty global operand is the
  operation's error (`Machine.Operands`).
- `add`, `sub`, `mul` and `div` (`math.rs:51-73`) pass the `Result` of
  `Constant::add`, `sub` and `div` (`constant.rs:49,91,174`) to
  `mov_dst(value: Constant)`, and themselves return `()`. The model reads the
  value as `?` inside the operation (`Machine.Math` returns the error and
  writes nothing), and the dispatch loop, which looks at no result there,
  drops that error: an arithmetic error such as an i64 overflow or a division
  by zero leaves the destination unchanged, and the run goes on at the next
  instruction (`Machine.Arith`).
- `execution_engine.rs:35` uses `push_on_stack`, which returns
  `Result<(), ResurgenceError>` (`stk_push.rs:5`), as a `()` arm. The model
  drops that error: a push from a missing or empty global leaves the stack as
  it was, and the run goes on at the next instruction (`Machine.DataStep`).
- `execution_engine.rs:29` applies `?` to `ext_call`, which returns `()`
  (`ext_call.rs:5`). `ext_call` builds its argument with
  `ResurgenceState::from`, where only `new` exists (`resurgence_state.rs:8`),
  and calls the `Option` field `func` directly (`imports.rs:8`). The model reads
  the call as running the registration on a copy of the value stack: an index
  past the registrations, or a host function that reports an error (the
  source's `panic!`), ends the run with `Panicked`. Otherwise nothing in the
  interpreter changes (`Machine.ControlStep`).
- `StackFrame` declares `registers: Vec<Constant>` (`stackframe.rs:6`), but
  `math.rs:46` and the register utilities store `Some(..)` there and take
  values out of it. The model's frame slots are `Option<Constant>`
  (`Machine.Frame`); a new frame's slots are `Some(Int(0))`.
- `objects/codeholder.rs:6-11` declares only `instructions: Vec<Instruction>`
  and `constant_pool`. Yet the readers, the writers and the code generators
  use `imports` and `exports` as well and push `Some(..)` instructions
  (`bytecode/codereader.rs:157,225`, `codegen/mod.rs:30-44`). The model's holder
  is the one those files use (`Codec.CodeHolder`, `CodeGen.Holder`): pool,
  imports, exports and `Option` instruction slots.
- `codegen/mod.rs:34-40` pass a `u32` to `Call(u64)` and `ExtCall(u64)`
  (`instruction.rs:53,60`). The model widens the value, as an `as u64` cast
  would (`CodeGen.GenerateCall`, `CodeGen.GenerateExtCall`).

What the proofs show about the source, beyond agreement of each imperative
member with its specification function:

- The current writer emits a `Vec` constant as its tag and its elements
  without the count the reader expects, so a `Vec` never reads back
  (`CodecRoundTrip.VecConstantDoesNotRoundTrip`). The round trip holds for
  any iteration order of the exports map when the tag bytes of the format are
  pairwise distinct, its major version is one followed by a minor field
  (outside 1 to 6), and the holder has no `Vec` constant, no empty instruction
  slot (the writer panics on one), only UTF-8 strings and counts that fit
  their fields.
- The older writer writes an import table that the older reader does not
  read: the reader decodes those bytes as instructions
  (`LegacyRoundTrip.ImportsReadAsInstructions`).
- The interpreter's `mul` calls `sub` (`MachineProps.MulSubtracts`).
- The documentation of `modlo` gives `5 mod 5 = 1`; the code computes 0
  (`ConstantOps.DocumentedExamples`).

## Model

| member | source | states |
|---|---|---|
| Primitives.FromToBE | src/bytecode/codewriter.rs:97-120 | reading back the n-byte big-endian encoding of a number below 256^n gives the number |
| Primitives.ToFromBE | src/bytecode/codereader.rs:161-207 | every byte string is the big-endian encoding of the number it denotes, so the fixed-width fields have exactly one reading |
| Primitives.I64BitsInverse | src/bytecode/codereader.rs:96 | an i64 written as its two's-complement bit pattern reads back as the same i64 |
| Primitives.AsciiIsUtf8 | src/bytecode/codereader.rs:24-33 | pure ASCII text passes the UTF-8 check of `String::from_utf8` |
| Primitives.StrayContinuationIsNotUtf8 | src/bytecode/codereader.rs:24-33 | a lone continuation byte fails that check, so the check rejects something |
| Primitives.DigitsRoundTrip | src/ext_func/resurgence_state.rs:70-79 | the decimal digits of a natural number have no leading zero and denote that number |
| Primitives.DecimalRoundTrip | src/ext_func/resurgence_state.rs:70-79 | `i64::to_string` text is ASCII, an optional minus sign and digits, and parses back to the number |
| Format.FindOp | src/bytecode/codereader.rs:217-402 | the match selects no arm exactly when no arm carries the byte |
| Format.FindOpOfCode | src/bytecode/codereader.rs:217-402 | with distinct opcode bytes, the arm for an opcode's byte is that opcode's arm |
| Format.FindOpIndexed | src/api/codereader.rs:183-326 | in a match whose k-th arm is byte k, byte k selects the k-th arm |
| Codec.ReadN | src/bytecode/codereader.rs:22-23 | `read_exact` succeeds iff n bytes remain, yields exactly those bytes and advances by n; otherwise it is an end-of-file error |
| Codec.ReadBE | src/bytecode/codereader.rs:161-205 | a big-endian field succeeds iff its bytes remain, and its value is the number those bytes denote |
| Codec.ReadU8 | src/bytecode/codereader.rs:215 | one byte: the byte at the position, or end of file when none is left |
| Codec.ReadU16 | src/bytecode/codereader.rs:169 | a u16 succeeds iff two bytes remain and advances by two |
| Codec.ReadU32 | src/bytecode/codereader.rs:189 | a u32 succeeds iff four bytes remain and advances by four |
| Codec.ReadU64 | src/bytecode/codereader.rs:195 | a u64 succeeds iff eight bytes remain and advances by eight |
| Codec.ReadI64 | src/bytecode/codereader.rs:248 | an i64 succeeds iff eight bytes remain and advances by eight |
| Codec.ReadString | src/bytecode/codereader.rs:20-35 | a string read is UTF-8 and ends exactly 8 + its length bytes after the start |
| Codec.ReadRegLoc | src/bytecode/codereader.rs:47-67 | a location read consumes exactly one byte; `CodecRules.LocationByteRule` gives which bytes are accepted |
| Codec.ReadRegister | src/bytecode/codereader.rs:38-44 | a register read consumes exactly five bytes |
| Codec.ReadRegRef | src/bytecode/codereader.rs:70-89 | a reference read consumes exactly one byte; `CodecRules.ReferenceByteRule` gives which bytes are accepted |
| Codec.ReadConstant | src/bytecode/codereader.rs:91-138 | a constant read consumes at least its tag byte and stays within the buffer; the per-tag rules are in `CodecRules` |
| Codec.ReadConstants | src/bytecode/codereader.rs:119-126 | reading `count` constants appends exactly `count` values after those already read |
| Codec.ReadOperands | src/bytecode/codereader.rs:217-391 | the operands of an arm stay within the buffer |
| Codec.ReadInstruction | src/bytecode/codereader.rs:214-402 | a successful pass consumes the opcode byte, whose arm exists; a byte with no arm is the "unrecognized instruction" error naming that byte |
| Codec.ReadInstrs | src/bytecode/codereader.rs:210-404 | the loop only appends: what was decoded before is a prefix of the result; `CodecRules.ReadNoops` shows NOOP bytes add nothing |
| Codec.ReadMinor | src/bytecode/codereader.rs:169-173 | majors 1 to 6 read no minor field and count as minor 0; other majors read a u16 |
| Codec.ReadHeader | src/bytecode/codereader.rs:161-186 | an accepted header starts with the magic number; the version rule is `CodecRules.VersionRuleWithMinor` and `VersionRuleWithoutMinor` |
| Codec.ReadImports | src/bytecode/codereader.rs:195-199 | reading `count` names appends exactly `count` names |
| Codec.ReadExports | src/bytecode/codereader.rs:202-207 | the exports loop only adds names to the map |
| Codec.ReadBody | src/bytecode/codereader.rs:189-404 | every instruction slot a successful read fills holds `Some` |
| Codec.ReadBytecode | src/bytecode/codereader.rs:153-407 | a buffer read successfully starts with the magic number |
| Codec.EncodeString | src/bytecode/codewriter.rs:19-24 | the encoding of a string is its length field followed by its bytes |
| Codec.EncodeInstruction | src/bytecode/codewriter.rs:123-257 | an encoded instruction starts with the opcode byte of its variant |
| CodecRules.MissingMagic | src/bytecode/codereader.rs:161-166 | four leading bytes other than the magic number are a missing-header error |
| CodecRules.VersionRuleWithoutMinor | src/bytecode/codereader.rs:169-186 | majors 1 to 6 read no minor field: the header is accepted iff the major is VER_MAJOR, ends at byte 6, and a rejection reports the major with minor 0 |
| CodecRules.VersionRuleWithMinor | src/bytecode/codereader.rs:169-186 | any other major is followed by a u16 minor: accepted iff major == VER_MAJOR and minor <= VER_MINOR, ending at byte 8; a rejection reports both numbers |
| CodecRules.ShortHeader | src/bytecode/codereader.rs:161-173 | a header cut short of the fields its major calls for is an end-of-file error |
| CodecRules.LocationByteRule | src/bytecode/codereader.rs:47-67 | a location byte is accepted iff it is one of the four LOC_* values; any other is a bad-location error naming it; no byte is end of file |
| CodecRules.LocationByteValues | src/bytecode/codereader.rs:50-54 | with distinct LOC_* bytes, each reads as its own location and consumes one byte |
| CodecRules.ReferenceByteRule | src/bytecode/codereader.rs:70-89 | a reference byte is accepted iff it is REF_AS_IS or REF_DEREFERENCE; any other is a bad-reference error naming it |
| CodecRules.BooleanRule | src/bytecode/codereader.rs:109-113 | a boolean constant is true for every non-zero byte and false for zero, and is two bytes long |
| CodecRules.VecRule | src/bytecode/codereader.rs:119-126 | a Vec constant is a u8 count and then that many constants, in order; it is read iff they are, and fails with their error |
| CodecRules.VecWithoutCount | src/bytecode/codereader.rs:119-120 | a Vec tag at the end of the buffer is an end-of-file error |
| CodecRules.UnknownConstantTag | src/bytecode/codereader.rs:127-136 | a tag byte that is none of the CONST_* values is an error naming that byte |
| CodecRules.NoopAddsNothing | src/bytecode/codereader.rs:215-221 | a NOOP byte is consumed and adds no instruction |
| CodecRules.ReadNoops | src/bytecode/codereader.rs:210-221 | a run of NOOP bytes adds nothing, and a stream ending in NOOPs decodes to what came before them |
| CodecRules.NoopArm | src/bytecode/codereader.rs:217-221 | NOOP is the first arm of the reader's match, so its byte always selects it |
| CodecRules.UnknownOpcode | src/bytecode/codereader.rs:392-402 | an opcode byte with no arm stops the loop with an error naming it, whatever follows |
| CodeReader.Cursor.ReadExact | src/bytecode/codereader.rs:22-23 | the cursor method returns what `Codec.ReadN` returns and moves to where it ends |
| CodeReader.Cursor.ReadU8 | src/bytecode/codereader.rs:215 | agrees with `Codec.ReadU8` |
| CodeReader.Cursor.ReadU16 | src/bytecode/codereader.rs:169 | agrees with `Codec.ReadU16` |
| CodeReader.Cursor.ReadU32 | src/bytecode/codereader.rs:189 | agrees with `Codec.ReadU32` |
| CodeReader.Cursor.ReadU64 | src/bytecode/codereader.rs:195 | agrees with `Codec.ReadU64` |
| CodeReader.Cursor.ReadI64 | src/bytecode/codereader.rs:248 | agrees with `Codec.ReadI64` |
| CodeReader.ReadString | src/bytecode/codereader.rs:20-35 | read_string on a cursor agrees with `Codec.ReadString` |
| CodeReader.ReadRegLoc | src/bytecode/codereader.rs:47-67 | read_reg_loc agrees with `Codec.ReadRegLoc` |
| CodeReader.ReadRegister | src/bytecode/codereader.rs:38-44 | read_register agrees with `Codec.ReadRegister` |
| CodeReader.ReadRegRef | src/bytecode/codereader.rs:70-89 | read_reg_ref agrees with `Codec.ReadRegRef` |
| CodeReader.ReadConstant | src/bytecode/codereader.rs:91-138 | read_constant, a Vec by recursion, agrees with `Codec.ReadConstant` |
| CodeReader.ReadElements | src/bytecode/codereader.rs:119-126 | the element loop agrees with `Codec.ReadConstants` from an empty list |
| CodeReader.ReadOperands | src/bytecode/codereader.rs:217-391 | every arm's operand reads agree with `Codec.ReadOperands` |
| CodeReader.ReadSizeOperands | src/bytecode/codereader.rs:222-244 | the alloc, free, frame_alloc and frame_free arms agree with `Codec.ReadOperands` |
| CodeReader.ReadWordOperand | src/bytecode/codereader.rs:246-259 | the jump, call and ext_call arms agree with `Codec.ReadOperands` |
| CodeReader.ReadTransferOperands | src/bytecode/codereader.rs:265-310 | the mov, cpy, ref, stack_push and stack_mov arms agree with `Codec.ReadOperands` |
| CodeReader.ReadArithOperands | src/bytecode/codereader.rs:315-349 | the add, sub, mul, div and mod arms agree with `Codec.ReadOperands` |
| CodeReader.ReadComparisonOperands | src/bytecode/codereader.rs:350-391 | the six comparison arms agree with `Codec.ReadOperands` |
| CodeReader.ReadInstruction | src/bytecode/codereader.rs:214-402 | one pass of the loop agrees with `Codec.ReadInstruction` |
| CodeReader.ReadPool | src/bytecode/codereader.rs:189-192 | the constant-pool loop agrees with `Codec.ReadPool` |
| CodeReader.ReadImportTable | src/bytecode/codereader.rs:195-199 | the imports loop agrees with `Codec.ReadImportTable` |
| CodeReader.ReadExportTable | src/bytecode/codereader.rs:202-207 | the exports loop, later names overwriting earlier ones, agrees with `Codec.ReadExportTable` |
| CodeReader.ReadInstructions | src/bytecode/codereader.rs:210-404 | the instruction loop returns what `Codec.ReadInstrs` returns, each instruction wrapped in `Some` |
| CodeReader.ReadHeader | src/bytecode/codereader.rs:161-186 | the header checks agree with `Codec.ReadHeader` |
| CodeReader.ReadBody | src/bytecode/codereader.rs:189-404 | the sections in order agree with `Codec.ReadBody` |
| CodeReader.ReadBytecode | src/bytecode/codereader.rs:153-407 | read_bytecode returns exactly `Codec.ReadBytecode` of the buffer |
| CodeWriter.ByteBuf.Push | src/bytecode/codewriter.rs:52 | pushing a byte appends exactly that byte |
| CodeWriter.ByteBuf.WriteAll | src/bytecode/codewriter.rs:22 | `write_all` appends exactly the given bytes |
| CodeWriter.ByteBuf.WriteBE | src/bytecode/codewriter.rs:98-101 | a big-endian write appends the n-byte encoding of the value |
| CodeWriter.WriteString | src/bytecode/codewriter.rs:19-24 | write_string appends `Codec.EncodeString` of the string |
| CodeWriter.WriteRegLoc | src/bytecode/codewriter.rs:32-40 | write_reg_loc appends the location's byte |
| CodeWriter.WriteRegister | src/bytecode/codewriter.rs:26-30 | write_register appends `Codec.EncodeRegister` |
| CodeWriter.WriteRegRef | src/bytecode/codewriter.rs:42-47 | write_reg_ref appends the reference's byte |
| CodeWriter.WriteConstant | src/bytecode/codewriter.rs:49-82 | write_constant appends `Codec.EncodeConstant`, a Vec without its count |
| CodeWriter.WriteElements | src/bytecode/codewriter.rs:76-78 | the Vec arm's loop appends each element's encoding in order |
| CodeWriter.WriteInstruction | src/bytecode/codewriter.rs:124-256 | one arm appends `Codec.EncodeInstruction` |
| CodeWriter.WriteOperands | src/bytecode/codewriter.rs:126-251 | the operands of each variant are appended in declaration order |
| CodeWriter.WriteMoveOperands | src/bytecode/codewriter.rs:159-178 | the mov, cpy and ref operands: register, reference, register, reference |
| CodeWriter.WriteHeader | src/bytecode/codewriter.rs:97-101 | appends the magic number, the major and the minor version |
| CodeWriter.WritePool | src/bytecode/codewriter.rs:103-107 | appends the pool's count `as u32` and its constants |
| CodeWriter.WriteImportTable | src/bytecode/codewriter.rs:109-113 | appends the import count as a u64 and each name |
| CodeWriter.WriteExportTable | src/bytecode/codewriter.rs:115-120 | appends the export count and the entries in the map's iteration order |
| CodeWriter.WriteExport | src/bytecode/codewriter.rs:118-119 | one export entry: the name, then the position as a u64 |
| CodeWriter.WriteInstructions | src/bytecode/codewriter.rs:122-257 | appends every instruction's encoding in order; an empty slot panics, hence the precondition |
| CodeWriter.WriteBytecode | src/bytecode/codewriter.rs:94-260 | write_bytecode returns exactly `Codec.EncodeBytecode` of the holder |
| CodecRoundTrip.ReadStringAt | src/bytecode/codereader.rs:20-35 | an encoded UTF-8 string reads back as itself, ending where its encoding ends |
| CodecRoundTrip.ReadRegLocAt | src/bytecode/codereader.rs:47-67 | with distinct location bytes, every location reads back |
| CodecRoundTrip.ReadRegisterAt | src/bytecode/codereader.rs:38-44 | every register reads back from its five bytes |
| CodecRoundTrip.ReadRegRefAt | src/bytecode/codereader.rs:70-89 | every reference reads back |
| CodecRoundTrip.ReadConstantAt | src/bytecode/codereader.rs:91-138 | every non-Vec constant with a UTF-8 string reads back from its encoding and ends where the encoding ends |
| CodecRoundTrip.VecConstantDoesNotRoundTrip | src/bytecode/codewriter.rs:74-80 | the empty Vec is written as its tag alone, and reading that byte back is an end-of-file error |
| CodecRoundTrip.ReadConstantsAt | src/bytecode/codereader.rs:189-192 | an encoded list of such constants reads back in order |
| CodecRoundTrip.ReadOperandsAt | src/bytecode/codereader.rs:217-391 | every instruction's operands read back as the instruction under its opcode's arm |
| CodecRoundTrip.ReadInstructionAt | src/bytecode/codereader.rs:214-402 | an opcode byte whose arm is the instruction's opcode, followed by its operands, reads back as that instruction |
| CodecRoundTrip.ReaderArmsSelect | src/bytecode/codereader.rs:217-391 | with distinct opcode bytes the reader's match selects every opcode by its byte |
| CodecRoundTrip.ReadInstrsAt | src/bytecode/codereader.rs:210-404 | an encoded instruction stream running to the end of the buffer reads back in order |
| CodecRoundTrip.ReadImportsAt | src/bytecode/codereader.rs:195-199 | encoded UTF-8 import names read back in order |
| CodecRoundTrip.ReadExportEntryAt | src/bytecode/codereader.rs:203-206 | one export entry reads back as its name and position |
| CodecRoundTrip.ReadExportsAt | src/bytecode/codereader.rs:202-207 | the entries written in any enumeration order rebuild the map |
| CodecRoundTrip.EnumerationCovers | src/bytecode/codewriter.rs:116-120 | an enumeration of the keys without repetition is as long as the map and rebuilds it exactly |
| CodecRoundTrip.ReadHeaderAt | src/bytecode/codereader.rs:161-186 | the header written for a major with a minor field is accepted and ends at byte 8 |
| CodecRoundTrip.ReadPoolAt | src/bytecode/codereader.rs:189-192 | an encoded pool whose count fits a u32 reads back |
| CodecRoundTrip.ReadImportTableAt | src/bytecode/codereader.rs:195-199 | an encoded import table reads back |
| CodecRoundTrip.ReadExportTableAt | src/bytecode/codereader.rs:202-207 | an encoded export table reads back as the same map |
| CodecRoundTrip.ReadBodyAt | src/bytecode/codereader.rs:189-404 | the four sections written one after the other read back as the holder |
| CodecRoundTrip.RoundTrip | src/bytecode/codereader.rs:153-407 | `read_bytecode(write_bytecode(h)) == h` for distinct tag bytes, a major with a minor field and a holder without Vec constants or empty slots, with UTF-8 strings and counts that fit |
| ConstantOps.Checked | src/objects/constant.rs:52 | `checked_*` gives the exact result iff it lies in the i64 range |
| ConstantOps.CheckOverflow | src/objects/constant.rs:23-34 | None is the overflow error, and a value passes unchanged |
| ConstantOps.AsU32 | src/objects/constant.rs:68 | `v as u32` is congruent to v modulo 2^32 |
| ConstantOps.Shift | src/objects/constant.rs:67-69 | moving an address by an integer keeps its location |
| ConstantOps.Add | src/objects/constant.rs:49-76 | add fails only with an overflow or an invalid operation |
| ConstantOps.Sub | src/objects/constant.rs:91-118 | sub fails only with an overflow or an invalid operation |
| ConstantOps.Mul | src/objects/constant.rs:134-158 | mul fails only with an overflow or an invalid operation |
| ConstantOps.Div | src/objects/constant.rs:174-213 | div fails only with an overflow or an invalid operation |
| ConstantOps.Modlo | src/objects/constant.rs:229-261 | modlo fails only with an invalid operation |
| ConstantOps.AddInt | src/objects/constant.rs:51-60 | Int + Int is the exact sum when it fits in an i64, and an overflow error otherwise |
| ConstantOps.SubInt | src/objects/constant.rs:93-102 | Int - Int is the exact difference when it fits, and an overflow error otherwise |
| ConstantOps.MulInt | src/objects/constant.rs:136-145 | Int * Int is the exact product when it fits, and an overflow error otherwise |
| ConstantOps.TruncDivRem | src/objects/constant.rs:176-190 | Rust's `/` and `%`: b * q + r == a, \|r\| < \|b\|, and r is zero or has a's sign |
| ConstantOps.DivFits | src/objects/constant.rs:176-190 | outside i64::MIN / -1 the truncated quotient of two i64 values is an i64 |
| ConstantOps.DivInt | src/objects/constant.rs:176-190 | Int / Int: a zero divisor is an invalid operation, i64::MIN / -1 overflows, otherwise the quotient rounded toward zero |
| ConstantOps.DivModlo | src/objects/constant.rs:174-238 | for a non-zero divisor div and modlo both succeed and satisfy a == b * q + r with \|r\| < \|b\|, r zero or of a's sign; a zero divisor is an invalid operation |
| ConstantOps.DocumentedExamples | src/objects/constant.rs:35-261 | 5+5=10, 5-5=0, 5*5=25, 5/5=1, and 5 modlo 5 = 0 |
| ConstantOps.AddressOffset | src/objects/constant.rs:67-110 | Address ± Int succeeds, is the same with the integer on either side, keeps the location and moves the index by the integer modulo 2^32 |
| ConstantOps.AddressAddSub | src/objects/constant.rs:67-110 | subtracting an integer from an address undoes adding it |
| ConstantOps.AddCommutes | src/objects/constant.rs:49-76 | add commutes on every pair but two Doubles |
| ConstantOps.NonNumericRejected | src/objects/constant.rs:49-261 | strings, booleans and Vecs combine with nothing: every operation is an invalid operation, on either side |
| ConstantOps.AddressArithmeticRejected | src/objects/constant.rs:49-261 | addresses do not multiply, divide or take remainders, and two addresses neither add nor subtract |
| Machine.Initial | src/internal/interpreter/mod.rs:25-32 | a new interpreter has accumulator 0, no frames, globals, stack values, registrations or import table |
| Machine.NewFrame | src/objects/stackframe.rs:14-20 | a new frame has `size` registers, each Int(0) |
| Machine.SetLocal | src/internal/interpreter/utils/mod.rs:100-102 | a store into the top frame leaves every frame below it and the globals alone |
| Machine.MovGlobal | src/internal/interpreter/utils/mod.rs:14-27 | an index past the end is REGISTER_OUT_OF_BOUNDS, an empty slot MEMORY_ADDRESS_NONE, otherwise the slot's value is taken and the slot emptied |
| Machine.CpyGlobal | src/internal/interpreter/utils/mod.rs:32-45 | the same errors as mov_global, and otherwise the slot's value |
| Machine.MovLocal | src/internal/interpreter/utils/mod.rs:57-60 | the top frame's register's value, the register left empty |
| Machine.CpyLocal | src/internal/interpreter/utils/mod.rs:65-68 | the top frame's register's value |
| Machine.Deref | src/internal/interpreter/utils/mod.rs:116-137 | the register named by the Address the Global or Local register holds |
| Machine.Target | src/internal/interpreter/instruction/mov.rs:16-28 | an AsIs operand is itself and a Dereference operand the register it points to |
| Machine.ToAcc | src/internal/interpreter/instruction/mov.rs:32-64 | the accumulator takes exactly the numeric values; anything else is the given error with no change |
| Machine.Read | src/internal/interpreter/instruction/math.rs:6-28 | a Global operand is read by cpy_global; others always succeed; `MachineProps.ReadOperand` gives each value |
| Machine.WriteDst | src/internal/interpreter/instruction/math.rs:29-49 | mov_dst changes no stack, registration or import table |
| Machine.Matches | src/internal/interpreter/resolve_imports.rs:12-18 | the indices found are among the registrations searched |
| Machine.Resolve | src/internal/interpreter/resolve_imports.rs:11-26 | resolution only appends to the import table |
| MachineProps.Store | src/internal/interpreter/utils/mod.rs:100-102 | storing into one register changes that register and no other |
| MachineProps.TakeFrom | src/internal/interpreter/utils/mod.rs:14-27 | taking a register's value empties it and leaves the others |
| MachineProps.MoveBetweenRegisters | src/internal/interpreter/instruction/mov.rs:66-83 | between Global and Local registers the destination receives the source's value and the source is emptied; nothing else changes |
| MachineProps.MoveFromBadGlobal | src/internal/interpreter/instruction/mov.rs:66-76 | moving out of an empty or missing global is that register's error with nothing changed |
| MachineProps.MoveIntoAccumulator | src/internal/interpreter/instruction/mov.rs:32-64 | a number moved into the accumulator sets it and empties the source; anything else is INVALID_OPERATION |
| MachineProps.MoveRejected | src/internal/interpreter/instruction/mov.rs:84-88 | every ConstantPool combination and Accumulator to Accumulator is "Invalid MOV operation" with nothing changed |
| MachineProps.MoveDereferences | src/internal/interpreter/instruction/mov.rs:16-28 | Dereference operands are replaced by the registers they point to before the move |
| MachineProps.PopEmpty | src/internal/interpreter/instruction/mov.rs:105-109 | stack_mov on an empty stack is an error and nothing changes |
| MachineProps.PopIntoRegister | src/internal/interpreter/instruction/mov.rs:110-132 | the top of the stack goes into the Global or Local register, and only there |
| MachineProps.PopIntoConstantPool | src/internal/interpreter/instruction/mov.rs:110-116 | a ConstantPool destination is an error after the pop: the value is gone and no register changes |
| MachineProps.CopyBetweenRegisters | src/internal/interpreter/instruction/cpy.rs:62-87 | the destination receives the source's value; every other register, the source included, keeps its own |
| MachineProps.CopyFromPool | src/internal/interpreter/instruction/cpy.rs:56-73 | a pool entry is copied into a Global or Local register |
| MachineProps.CopyIntoAccumulator | src/internal/interpreter/instruction/cpy.rs:30-54 | a number sets the accumulator, anything else is InvalidInput; no register changes |
| MachineProps.CopyRejected | src/internal/interpreter/instruction/cpy.rs:89 | the remaining combinations are "Invalid cpy operation" with nothing changed |
| MachineProps.ReferenceStores | src/internal/interpreter/instruction/ref_reg.rs:16-32 | the destination receives the Address of the source register, not its value; nothing else changes |
| MachineProps.ReferenceRejected | src/internal/interpreter/instruction/ref_reg.rs:33 | a ConstantPool or Accumulator destination is an error with nothing changed |
| MachineProps.PushGrows | src/internal/interpreter/instruction/stk_push.rs:11-27 | the stack grows by one value on top: a pool copy, the accumulator, or a register's value moved out of it |
| MachineProps.PushFromBadGlobal | src/internal/interpreter/instruction/stk_push.rs:14-19 | a missing or empty global is returned as an error and the stack is unchanged |
| MachineProps.ReadOperand | src/internal/interpreter/instruction/math.rs:6-28 | a Global or Local operand reads what its register holds and fails iff the global slot is missing or empty; a pool operand reads the pool entry; the accumulator reads as a Double of its bits |
| MachineProps.MathWritesDestination | src/internal/interpreter/instruction/math.rs:6-49 | a successful result lands in the destination and no other register changes |
| MachineProps.MathErrorWritesNothing | src/internal/interpreter/instruction/math.rs:51-73 | an operand error or a value error is returned and nothing is written |
| MachineProps.MathReadsByCopy | src/internal/interpreter/instruction/math.rs:6-28 | both operand registers keep their values |
| MachineProps.MulSubtracts | src/internal/interpreter/instruction/math.rs:63-67 | the mul instruction stores the difference of its operands: 5 mul 5 stores 0 |
| MachineProps.InequalityNegatesEquality | src/internal/interpreter/instruction/cmp.rs:8-46 | not_equal is the negation of equal wherever equal is defined, and both reject the same pairs |
| MachineProps.EqualityOnSameKind | src/internal/interpreter/instruction/cmp.rs:11-17 | two Ints, Strings, Booleans or Addresses compare by equality |
| MachineProps.EqualityRejects | src/internal/interpreter/instruction/cmp.rs:18-22 | values of different kinds, other than Int against Double, and any Vec are INVALID_OPERATION |
| MachineProps.OrderOnInts | src/internal/interpreter/instruction/cmp.rs:52-107 | ordering on Ints is integer ordering, and the non-strict orders negate the strict ones |
| MachineProps.OrderSwaps | src/internal/interpreter/instruction/cmp.rs:52-107 | greater_than is less_than with its operands swapped, and likewise the non-strict pair |
| EngineProps.MatchesExactly | src/internal/interpreter/resolve_imports.rs:11-18 | the inner loop finds exactly the registrations with the import's name, in registration order |
| EngineProps.NoMatchIffMissing | src/internal/interpreter/resolve_imports.rs:19-24 | an import finds no match exactly when no registration has its name |
| EngineProps.ResolveSucceeds | src/internal/interpreter/resolve_imports.rs:11-26 | resolution succeeds iff every import is provided, and then the table grows by the matches of every import in order |
| EngineProps.ResolveFailsAtFirstMissing | src/internal/interpreter/resolve_imports.rs:15-24 | a failure stops at the first missing import and keeps what earlier imports appended |
| EngineProps.ResolveImportsEffect | src/internal/interpreter/resolve_imports.rs:8-29 | success sets `resolved_imports`, failure leaves it; only the table and the flag change |
| EngineProps.ResolveTwiceAppendsTwice | src/internal/interpreter/resolve_imports.rs:10-15 | the table is never cleared: a second resolution appends the whole mapping again |
| EngineProps.ResolveNothing | src/internal/interpreter/resolve_imports.rs:11-26 | an empty import list succeeds and appends nothing |
| EngineProps.MissingImportAborts | src/internal/interpreter/execution_engine.rs:9 | a missing import aborts the run before any instruction, with no register, frame or stack touched |
| EngineProps.AllocPushesFrame | src/internal/interpreter/execution_engine.rs:15-17 | Alloc(n) pushes one frame of n registers, each Int(0), and changes nothing else |
| EngineProps.FreePopsFrames | src/internal/interpreter/execution_engine.rs:18-22 | Free(n) pops min(n, depth) frames without error |
| EngineProps.JumpMovesByOffset | src/internal/interpreter/execution_engine.rs:23-26 | Jump(k) moves the index by k alone, wrapping as a usize |
| EngineProps.StackPopDrops | src/internal/interpreter/execution_engine.rs:36-38 | StackPop drops the top value and does nothing on an empty stack |
| EngineProps.ComparisonSkips | src/internal/interpreter/execution_engine.rs:45-74 | a comparison changes no state and advances by 2 when it holds, by 1 otherwise |
| EngineProps.EqualSkipsWhenEqual | src/internal/interpreter/execution_engine.rs:45-51 | Equal skips exactly when its operands are equal |
| EngineProps.OthersAdvanceByOne | src/internal/interpreter/execution_engine.rs:78 | every other instruction that goes on advances the index by one |
| EngineProps.SkipPastEndPanics | src/internal/interpreter/execution_engine.rs:12-13 | a comparison that holds on the last instruction takes the index past the end, and the next fetch panics |
| EngineProps.CallToEnd | src/internal/interpreter/execution_engine.rs:9-28 | a call to the end of the program re-resolves the imports, runs nothing and continues after the call |
| EngineProps.CallPastEnd | src/internal/interpreter/execution_engine.rs:12-28 | a call to a target past the end panics and ends the caller |
| EngineProps.CallMissingImport | src/internal/interpreter/execution_engine.rs:9-28 | a callee whose imports fail ends the caller with the missing-imports error and the partly extended table |
| EngineProps.ExecuteFuel | src/internal/interpreter/execution_engine.rs:8-81 | more fuel does not change a run that ended without running out |
| Interp.StackFrameFrom | src/objects/stackframe.rs:14-20 | the register vector built by resizing is `Machine.NewFrame(size)` |
| Interp.Interpreter.RegisterFunction | src/internal/interpreter/imports.rs:19-30 | appends one Rust registration and keeps the registry consistent; nothing else changes |
| Interp.Interpreter.RegisterNativeFunction | src/internal/interpreter/imports.rs:32-43 | appends one native registration; nothing else changes |
| Interp.Interpreter.ResolveImports | src/internal/interpreter/resolve_imports.rs:8-29 | the nested loops give exactly `Machine.ResolveImports` of the old state |
| Interp.Interpreter.PushMatches | src/internal/interpreter/resolve_imports.rs:12-18 | the inner loop appends `Machine.Matches` and reports whether it found any |
| Interp.Interpreter.TakeGlobal | src/internal/interpreter/utils/mod.rs:14-27 | agrees with `Machine.MovGlobal` |
| Interp.Interpreter.TakeLocal | src/internal/interpreter/utils/mod.rs:57-60 | agrees with `Machine.MovLocal` |
| Interp.Interpreter.StoreLocal | src/internal/interpreter/utils/mod.rs:100-102 | agrees with `Machine.SetLocal` |
| Interp.Interpreter.StoreAccumulator | src/internal/interpreter/instruction/mov.rs:32-64 | agrees with `Machine.ToAcc` |
| Interp.Interpreter.MovRegisters | src/internal/interpreter/instruction/mov.rs:10-91 | mov_registers agrees with `Machine.Move` |
| Interp.Interpreter.MovIntoAccumulator | src/internal/interpreter/instruction/mov.rs:31-64 | the accumulator-destination arms agree with `Machine.MovCase` |
| Interp.Interpreter.MovIntoGlobal | src/internal/interpreter/instruction/mov.rs:66-76 | the global-destination arms agree with `Machine.MovCase` |
| Interp.Interpreter.MovIntoLocal | src/internal/interpreter/instruction/mov.rs:77-88 | the local-destination arms agree with `Machine.MovCase` |
| Interp.Interpreter.StackMov | src/internal/interpreter/instruction/mov.rs:93-135 | stack_mov agrees with `Machine.PopInto` |
| Interp.Interpreter.CpyRegisters | src/internal/interpreter/instruction/cpy.rs:8-92 | cpy_registers agrees with `Machine.Copy` |
| Interp.Interpreter.RefRegisters | src/internal/interpreter/instruction/ref_reg.rs:7-36 | ref_registers agrees with `Machine.Reference` |
| Interp.Interpreter.PushOnStack | src/internal/interpreter/instruction/stk_push.rs:5-28 | push_on_stack agrees with `Machine.Push` |
| Interp.Interpreter.MovDst | src/internal/interpreter/instruction/math.rs:29-49 | mov_dst agrees with `Machine.WriteDst` |
| Interp.Interpreter.Arithmetic | src/internal/interpreter/instruction/math.rs:51-73 | add, sub, mul and div agree with `Machine.Math` |
| Interp.Interpreter.StepInstruction | src/internal/interpreter/execution_engine.rs:13-78 | one turn of the loop agrees with `Machine.Step` |
| Interp.Interpreter.ControlInstruction | src/internal/interpreter/execution_engine.rs:15-38 | the frame, jump and stack arms agree with `Machine.ControlStep` |
| Interp.Interpreter.DataInstruction | src/internal/interpreter/execution_engine.rs:31-35 | the mov, cpy, ref and push arms agree with `Machine.DataStep` |
| Interp.Interpreter.ArithmeticInstruction | src/internal/interpreter/execution_engine.rs:40-43 | the arithmetic arms agree with `Machine.ArithStep` |
| Interp.Interpreter.FreeFrames | src/internal/interpreter/execution_engine.rs:18-22 | the Free loop removes min(n, depth) frames from the top |
| Interp.Interpreter.ExecuteInstruction | src/internal/interpreter/execution_engine.rs:8-81 | execute_instruction ends in the state and outcome `Machine.Execute` gives |
| ExtState.BoolText | src/ext_func/resurgence_state.rs:76 | a boolean's text is ASCII and is "true" exactly for true |
| ExtState.AsText | src/ext_func/resurgence_state.rs:70-79 | Address and Vec values are InvalidType; an Int's text parses back to it; a String is itself; a Boolean is "true" iff it is true |
| ExtState.ResurgenceState.GetI64 | src/ext_func/resurgence_state.rs:22-27 | pops the top; succeeds iff it was an Int, with its value, and otherwise reports the expected type |
| ExtState.ResurgenceState.GetF64 | src/ext_func/resurgence_state.rs:34-39 | pops the top; succeeds iff it was a Double |
| ExtState.ResurgenceState.GetString | src/ext_func/resurgence_state.rs:46-51 | pops the top; succeeds iff it was a String |
| ExtState.ResurgenceState.GetBool | src/ext_func/resurgence_state.rs:58-63 | pops the top; succeeds iff it was a Boolean |
| ExtState.ResurgenceState.GetValueAsString | src/ext_func/resurgence_state.rs:70-79 | pops the top and returns `AsText` of it |
| ExtState.ResurgenceState.PushI64 | src/ext_func/resurgence_state.rs:89-91 | pushes one Int on top |
| ExtState.ResurgenceState.PushF64 | src/ext_func/resurgence_state.rs:101-103 | pushes one Double on top |
| ExtState.ResurgenceState.PushString | src/ext_func/resurgence_state.rs:113-115 | pushes one String on top |
| ExtState.ResurgenceState.PushBool | src/ext_func/resurgence_state.rs:125-127 | pushes one Boolean on top |
| ExtState.ResurgenceState.PushThenGetI64 | src/ext_func/resurgence_state.rs:22-91 | a pushed i64 is what the next get_i64 returns, and the stack is back as it was |
| ExtState.ResurgenceState.PushThenGetString | src/ext_func/resurgence_state.rs:46-115 | the same round trip for strings |
| ExtState.ResurgenceState.PushThenGetBool | src/ext_func/resurgence_state.rs:58-127 | the same round trip for booleans |
| ExtState.ResurgenceState.PushThenGetF64 | src/ext_func/resurgence_state.rs:34-103 | the same round trip for f64 bit patterns |
| Errors.ResurgenceError.From | src/objects/resurgence_error.rs:39-46 | the given kind and message, no context and an empty traceback |
| Errors.ResurgenceError.AddTrace | src/objects/resurgence_error.rs:51-53 | one traceback entry at the end; kind, message and context unchanged |
| RuntimeSeal.RunTimeSeal.constructor | src/internal/runtime_seal.rs:18-27 | not started, every permission Write |
| RuntimeSeal.RunTimeSeal.RuntimeSecurityStatus | src/internal/runtime_seal.rs:34-36 | returns the status |
| RuntimeSeal.RunTimeSeal.SetRuntime | src/internal/runtime_seal.rs:40-42 | the status becomes Untampered; permissions unchanged |
| RuntimeSeal.RunTimeSeal.RuntimeTampered | src/internal/runtime_seal.rs:46-48 | the status becomes Tampered; permissions unchanged |
| RuntimeSeal.RunTimeSeal.SetRustCPerms | src/internal/runtime_seal.rs:57-63 | before the start the level is set; afterwards the runtime is marked tampered and the level stays |
| RuntimeSeal.RunTimeSeal.SetGlobalPerms | src/internal/runtime_seal.rs:66-68 | changes nothing |
| Cardinal.Cardinal.constructor | src/internal/cardinal.rs:17-22 | not started |
| Cardinal.Cardinal.RuntimeSecurityStatus | src/internal/cardinal.rs:26-28 | returns the status |
| Cardinal.Cardinal.SetRuntime | src/internal/cardinal.rs:32-34 | the status becomes Untampered from any status, Tampered included |
| Cardinal.Cardinal.RuntimeTampered | src/internal/cardinal.rs:38-40 | the status becomes Tampered |
| SealFlag.RunTimeSeal.constructor | src/internal/runtime_seal/mod.rs:19-21 | not untampered |
| SealFlag.RunTimeSeal.SetRuntime | src/internal/runtime_seal/mod.rs:9-11 | the flag is set |
| SealFlag.RunTimeSeal.RuntimeTampered | src/internal/runtime_seal/mod.rs:15-17 | the flag is cleared |
| CodeGen.Holder.Push | src/codegen/mod.rs:9 | `instructions.push(Some(i))`: one instruction at the end, nothing else changes |
| CodeGen.LocationOf | src/codegen/mod.rs:16-27 | GLOBAL maps to Global and LOCAL to Local, never to ConstantPool or Accumulator |
| CodeGen.GenerateAlloc | src/codegen/mod.rs:8-10 | appends Alloc(amount) |
| CodeGen.GenerateFree | src/codegen/mod.rs:12-14 | appends Free(amount) |
| CodeGen.GenerateFrameAlloc | src/codegen/mod.rs:16-21 | appends FrameAlloc with the mapped location |
| CodeGen.GenerateFrameFree | src/codegen/mod.rs:23-28 | appends FrameFree with the mapped location |
| CodeGen.GenerateJump | src/codegen/mod.rs:30-32 | appends Jump with the signed offset unchanged |
| CodeGen.GenerateCall | src/codegen/mod.rs:34-36 | appends Call with the u32 widened |
| CodeGen.GenerateExtCall | src/codegen/mod.rs:38-40 | appends ExtCall |
| CodeGen.GenerateReturn | src/codegen/mod.rs:42-44 | appends Ret |
| ApiCodeGen.AsRvm | src/api/code_gen/mod.rs:3-6 | the API's GLOBAL is the generator's GLOBAL |
| ApiCodeGen.GenerateAlloc | src/api/code_gen/mod.rs:8-10 | appends Alloc(amount) |
| ApiCodeGen.GenerateFree | src/api/code_gen/mod.rs:12-14 | appends Free(amount) |
| ApiCodeGen.GenerateFrameAlloc | src/api/code_gen/mod.rs:16-21 | appends FrameAlloc, GLOBAL as Global and LOCAL as Local |
| ApiCodeGen.GenerateFrameFree | src/api/code_gen/mod.rs:23-28 | appends FrameFree likewise |
| ApiCodeGen.Level1GenerateAlloc | src/api/level_1/mod.rs:3-5 | appends Alloc(amount): one instruction more |
| ApiCodeGen.CodeBuilder.CreateLabel | src/api/level_1/abstraction.rs:4-6 | the name stands for the current instruction count, replacing an earlier position |
| ApiCodeGen.CodeBuilder.GenerateAlloc | src/api/level_1/generate_instruction.rs:6-8 | appends Alloc(block_count) |
| ApiCodeGen.CodeBuilder.GenerateFree | src/api/level_1/generate_instruction.rs:9-11 | appends Free(block_count) |
| ApiCodeGen.CodeBuilder.GenerateJump | src/api/level_1/generate_instruction.rs:12-14 | appends Jump(operation_count) |
| ApiCodeGen.CodeBuilder.GenerateCall | src/api/level_1/generate_instruction.rs:15-18 | appends a Call to the label's recorded position; an unknown label panics, hence the precondition |
| ApiCodeGen.CodeBuilder.LabelThenCall | src/api/level_1/generate_instruction.rs:15-18 | a label created just before a call names the call's own position; the pool, imports and exports of the holder stay unchanged |
| LegacyFormat.ConstTagsDistinct | src/api/parser_constants.rs:16-20 | the five constant tags are pairwise distinct |
| LegacyFormat.RegsDistinct | src/api/parser_constants.rs:25-34 | the location bytes and the reference bytes are distinct |
| LegacyFormat.InstCodesDistinct | src/api/parser_constants.rs:41-113 | the opcodes are pairwise distinct and NOOP is zero |
| LegacyFormat.ArmsIndexed | src/api/codereader.rs:183-315 | the k-th arm of the reader's match is for byte k |
| LegacyFormat.OpcodeByte | src/api/codewriter.rs:110-214 | the byte the writer emits is the byte of the reader arm for the same opcode |
| LegacyFormat.OpcodeByteSelects | src/api/codereader.rs:183-326 | the reader's match selects, for the byte the writer emits, the opcode written |
| LegacyFormat.ArmsSelectWritable | src/api/codereader.rs:183-326 | that holds for every instruction the writer can write |
| LegacyFormat.KnownOpcodes | src/api/codereader.rs:316-326 | a byte has an arm iff it is at most INST_LESS_EQUAL; the declared FRAME_ALLOC, FRAME_FREE, STACK_MOV and MOD bytes have none |
| LegacyCodec.ReadHeader | src/api/codereader.rs:98-112 | an accepted header is six bytes long |
| LegacyCodec.ReadConstant | src/api/codereader.rs:116-171 | a constant read consumes at least its tag and is never a Vec |
| LegacyCodec.ReadConstants | src/api/codereader.rs:114-172 | reading `count` constants appends exactly `count` values |
| LegacyCodec.ReadPool | src/api/codereader.rs:114-172 | the pool read stays within the buffer |
| LegacyCodec.ReadBytecode | src/api/codereader.rs:87-331 | a holder read has no imports |
| LegacyCodec.EncodeHeader | src/api/codewriter.rs:66-70 | the header is six bytes |
| LegacyCodec.EncodeInstruction | src/api/codewriter.rs:110-214 | an encoded instruction starts with its opcode byte |
| LegacyReader.ReadHeader | src/api/codereader.rs:98-112 | the cursor reads agree with `LegacyCodec.ReadHeader` |
| LegacyReader.ReadConstant | src/api/codereader.rs:116-171 | one arm of the pool loop agrees with `LegacyCodec.ReadConstant` |
| LegacyReader.ReadPool | src/api/codereader.rs:114-172 | the pool loop agrees with `LegacyCodec.ReadPool` |
| LegacyReader.ReadInstructions | src/api/codereader.rs:175-328 | the instruction loop returns exactly `Codec.ReadInstrs` under the older match |
| LegacyReader.ReadBytecode | src/api/codereader.rs:87-331 | read_bytecode returns exactly `LegacyCodec.ReadBytecode` |
| LegacyWriter.WriteHeader | src/api/codewriter.rs:66-70 | appends `LegacyCodec.EncodeHeader` |
| LegacyWriter.WriteConstant | src/api/codewriter.rs:75-99 | appends `LegacyCodec.EncodeConstant`, a boolean as 0x00 or 0x01 |
| LegacyWriter.WritePool | src/api/codewriter.rs:72-100 | appends `LegacyCodec.EncodePool` |
| LegacyWriter.WriteInstruction | src/api/codewriter.rs:110-214 | appends `LegacyCodec.EncodeInstruction` |
| LegacyWriter.WriteInstructions | src/api/codewriter.rs:108-215 | appends every instruction's encoding in order |
| LegacyWriter.WriteBytecode | src/api/codewriter.rs:64-218 | write_bytecode returns exactly `LegacyCodec.EncodeBytecode` |
| LegacyRoundTrip.HeaderRule | src/api/codereader.rs:98-112 | the header is accepted iff it is MAGIC_NUMBER then VERSION; otherwise a missing-header or unsupported-version error |
| LegacyRoundTrip.BooleanRule | src/api/codereader.rs:148-155 | a boolean constant is false for a zero byte and true for any other |
| LegacyRoundTrip.UnknownConstantTag | src/api/codereader.rs:161-170 | a tag that is none of the CONST_* values is an error naming that byte |
| LegacyRoundTrip.UnknownOpcode | src/api/codereader.rs:316-326 | an opcode above INST_LESS_EQUAL stops the loop with an error naming that byte |
| LegacyRoundTrip.ReadNoops | src/api/codereader.rs:183-186 | a run of zero bytes is a run of NOOPs that adds nothing |
| LegacyRoundTrip.ReadConstantAt | src/api/codereader.rs:116-171 | every constant the writer emits, with a UTF-8 string, reads back |
| LegacyRoundTrip.ReadConstantsAt | src/api/codereader.rs:114-172 | an encoded list of such constants reads back in order |
| LegacyRoundTrip.ReadPoolAt | src/api/codereader.rs:114-172 | an encoded pool whose count fits a u32 reads back |
| LegacyRoundTrip.ReadFirstInstructionAt | src/api/codereader.rs:175-328 | an encoded instruction reads back under arms that select each written opcode |
| LegacyRoundTrip.ReadInstrsAt | src/api/codereader.rs:175-328 | an encoded instruction stream running to the end reads back in order |
| LegacyRoundTrip.RoundTrip | src/api/codewriter.rs:64-218 | `read_bytecode(write_bytecode(h)) == h` for a holder without imports or Vec constants, with writable instructions, UTF-8 strings and a pool count that fits |
| LegacyRoundTrip.ImportsAreLost | src/api/codereader.rs:87-331 | a holder with imports never reads back |
| LegacyRoundTrip.ImportsReadAsInstructions | src/api/codewriter.rs:102-106 | one empty import name is written as bytes that the reader decodes as the instruction Alloc(0) |

## Left out

- File I/O: `read_bytecode_file` (src/bytecode/codereader.rs:142-151, src/api/codereader.rs:76-84) and `write_bytecode_file` (src/bytecode/codewriter.rs:84-92, src/api/codewriter.rs:53-61) only open, read or write a file around the in-memory functions that are modelled.
- The foreign-function interface (src/ffi/), the C header and the C++ front end: calls across languages.
- Floating point: a Double is its 64-bit pattern. The arithmetic and comparisons on Doubles go through an uninterpreted floating-point unit (`ConstantOps.FloatUnit`), so nothing is proved about their values. The accumulator, an f64, keeps only its bit pattern. Moving an Int into it converts through the same unit.
- ConstantOps.Add, ConstantOps.Sub, ConstantOps.Mul, ConstantOps.Div, ConstantOps.Modlo: their own contracts give only the error kinds; what they compute on integers and addresses is stated by the lemmas AddInt, SubInt, MulInt, DivInt, DivModlo and AddressOffset, and on Doubles not at all.
- `type_as_string` (src/objects/constant.rs:265-294) and `create_constant_double`: text for messages and a float constructor.
- ExtCall: the external call (instruction/ext_call.rs) dispatches to host code. The model's host is a given predicate on the registration and the argument stack, and only its success is used.
- The instructions with no arm in the dispatch loop: FrameAlloc, FrameFree, Ret, StackMov and Mod. They end a run as unhandled, and what they would mean is not modelled.
- The feature-gated `Vectorized*` variants (`src/objects/instruction.rs:191-216`) are not in the model's `Instruction` type; the current writer's catch-all panic on them (`src/bytecode/codewriter.rs:253-255`) is not modelled.
- Interp.Interpreter.ExecuteInstruction: runs with a fuel bound on loop turns and nested calls. A run that would not terminate ends as out of fuel, and `EngineProps.ExecuteFuel` shows that the bound never changes a run that finishes.
- The tag bytes of the current format (VER_MAJOR, VER_MINOR, CONST_*, LOC_*, REF_*, INST_*) are not part of this model's sources. They are a parameter (`Format`), and the round trip assumes they are pairwise distinct, as the reader's match needs.
- The iteration order of the exports `HashMap` in the writer is a parameter: any enumeration of the keys without repetition.
- LegacyReader.ReadHeader: an unsupported version is reported with the minor number 0, since the older format has no minor field; the message text is not modelled.
- LegacyWriter.WriteConstant, LegacyWriter.WritePool, LegacyCodec.EncodeConstant: require constants other than Vec, because the older writer's match has no Vec arm; the older sources predate that variant.
- LegacyWriter.WriteInstruction, LegacyWriter.WriteInstructions, LegacyWriter.WriteBytecode: require instructions other than FrameAlloc, FrameFree, Ret, StackMov and Mod. The older writer's match covers only the twenty other variants, and the older sources predate those.
- Error messages: each error is its kind and the values it names, not its formatted text.
- The `mul` instruction is modelled as the source writes it, calling `sub`, and not corrected (`MachineProps.MulSubtracts`).
- The `5 mod 5 = 1` of the `modlo` documentation is not what the code computes, and is not proved.
- ConstantOps.Shift, ConstantOps.AddressOffset: `index + v as u32` wraps modulo 2^32, as a release build's u32 addition does; a debug build would panic on the overflow.
- Jump offsets wrap modulo 2^64, as a release build's `usize` arithmetic does; a debug build would panic on the overflow.
- The reader's `Cursor` position is a natural number. A u64 length that does not fit in memory is treated as end of file.
