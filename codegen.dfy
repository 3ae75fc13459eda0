/** The instruction emitters of src/codegen/mod.rs: each appends one instruction
    to a code holder that the caller lends out mutably. */
module CodeGen {
  import opened Types
  import Codec

  /** A code holder lent out as `&mut CodeHolder`, changed in place by the
      emitters: the holder src/bytecode/codereader.rs fills, with its constant
      pool, imports, exports and `Some` instruction slots. */
  class Holder {
    var constantPool: seq<Constant>
    var imports: seq<Str>
    var exports: map<Str, u64>
    var instructions: seq<Option<Instruction>>

    constructor (h: Codec.CodeHolder)
      ensures Contents() == h
    {
      constantPool := h.constantPool;
      imports := h.imports;
      exports := h.exports;
      instructions := h.instructions;
    }

    /** The holder as a value. */
    function Contents(): Codec.CodeHolder
      reads this
    {
      Codec.CodeHolder(constantPool, imports, exports, instructions)
    }

    /** `instructions.push(Some(i))`: one instruction at the end, nothing else changes. */
    method Push(i: Instruction)
      modifies this
      ensures Contents() == old(Contents()).(instructions := old(instructions) + [Some(i)])
    {
      instructions := instructions + [Some(i)];
    }
  }

  /** RVMLocation (codegen/mod.rs:3-6). */
  datatype RvmLocation = RvmGlobal | RvmLocal

  /** The register location a frame instruction names: GLOBAL is Global and
      LOCAL is Local (codegen/mod.rs:17-20,24-27). */
  function LocationOf(l: RvmLocation): (r: RegisterLocation)
    ensures r == Global <==> l == RvmGlobal
    ensures r == Local <==> l == RvmLocal
    ensures r != ConstantPool && r != Accumulator
  {
    match l
    case RvmGlobal => Global
    case RvmLocal => Local
  }

  /** generate_alloc (codegen/mod.rs:8-10). */
  method GenerateAlloc(holder: Holder, amount: u32)
    modifies holder
    ensures holder.Contents() == old(holder.Contents()).(instructions := old(holder.instructions) + [Some(Alloc(amount))])
  {
    holder.Push(Alloc(amount));
  }

  /** generate_free (codegen/mod.rs:12-14). */
  method GenerateFree(holder: Holder, amount: u32)
    modifies holder
    ensures holder.Contents() == old(holder.Contents()).(instructions := old(holder.instructions) + [Some(Free(amount))])
  {
    holder.Push(Free(amount));
  }

  /** generate_frame_alloc (codegen/mod.rs:16-21). */
  method GenerateFrameAlloc(holder: Holder, amount: u32, location: RvmLocation)
    modifies holder
    ensures holder.Contents() == old(holder.Contents()).(instructions :=
      old(holder.instructions) + [Some(FrameAlloc(amount, LocationOf(location)))])
  {
    match location
    case RvmGlobal => holder.Push(FrameAlloc(amount, Global));
    case RvmLocal => holder.Push(FrameAlloc(amount, Local));
  }

  /** generate_frame_free (codegen/mod.rs:23-28). */
  method GenerateFrameFree(holder: Holder, amount: u32, location: RvmLocation)
    modifies holder
    ensures holder.Contents() == old(holder.Contents()).(instructions :=
      old(holder.instructions) + [Some(FrameFree(amount, LocationOf(location)))])
  {
    match location
    case RvmGlobal => holder.Push(FrameFree(amount, Global));
    case RvmLocal => holder.Push(FrameFree(amount, Local));
  }

  /** generate_jump (codegen/mod.rs:30-32): the signed offset unchanged. */
  method GenerateJump(holder: Holder, instructions: i64)
    modifies holder
    ensures holder.Contents() == old(holder.Contents()).(instructions := old(holder.instructions) + [Some(Jump(instructions))])
  {
    holder.Push(Jump(instructions));
  }

  /** generate_call (codegen/mod.rs:34-36): the u32 widened to the instruction's u64. */
  method GenerateCall(holder: Holder, loc: u32)
    modifies holder
    ensures holder.Contents() == old(holder.Contents()).(instructions := old(holder.instructions) + [Some(Call(loc))])
  {
    holder.Push(Call(loc));
  }

  /** generate_ext_call (codegen/mod.rs:38-40). */
  method GenerateExtCall(holder: Holder, instructionId: u32)
    modifies holder
    ensures holder.Contents() == old(holder.Contents()).(instructions := old(holder.instructions) + [Some(ExtCall(instructionId))])
  {
    holder.Push(ExtCall(instructionId));
  }

  /** generate_return (codegen/mod.rs:42-44). */
  method GenerateReturn(holder: Holder)
    modifies holder
    ensures holder.Contents() == old(holder.Contents()).(instructions := old(holder.instructions) + [Some(Ret)])
  {
    holder.Push(Ret);
  }
}

/** The emitters of the public API (src/api/code_gen/mod.rs and
    src/api/level_1): the same appends, and a builder that resolves call
    targets through a label table. */
module ApiCodeGen {
  import opened Types
  import CodeGen

  /** RVMLocation of the API (api/code_gen/mod.rs:3-6). */
  datatype ApiLocation = ApiGlobal | ApiLocal

  function AsRvm(l: ApiLocation): (r: CodeGen.RvmLocation)
    ensures r == CodeGen.RvmGlobal <==> l == ApiGlobal
  {
    if l == ApiGlobal then CodeGen.RvmGlobal else CodeGen.RvmLocal
  }

  /** generate_alloc (api/code_gen/mod.rs:8-10). */
  method GenerateAlloc(holder: CodeGen.Holder, amount: u32)
    modifies holder
    ensures holder.Contents() == old(holder.Contents()).(instructions := old(holder.instructions) + [Some(Alloc(amount))])
  {
    CodeGen.GenerateAlloc(holder, amount);
  }

  /** generate_free (api/code_gen/mod.rs:12-14). */
  method GenerateFree(holder: CodeGen.Holder, amount: u32)
    modifies holder
    ensures holder.Contents() == old(holder.Contents()).(instructions := old(holder.instructions) + [Some(Free(amount))])
  {
    CodeGen.GenerateFree(holder, amount);
  }

  /** generate_frame_alloc (api/code_gen/mod.rs:16-21): GLOBAL is Global, LOCAL is Local. */
  method GenerateFrameAlloc(holder: CodeGen.Holder, amount: u32, location: ApiLocation)
    modifies holder
    ensures var l := if location == ApiGlobal then Global else Local;
      holder.Contents() == old(holder.Contents()).(instructions := old(holder.instructions) + [Some(FrameAlloc(amount, l))])
  {
    CodeGen.GenerateFrameAlloc(holder, amount, AsRvm(location));
  }

  /** generate_frame_free (api/code_gen/mod.rs:23-28). */
  method GenerateFrameFree(holder: CodeGen.Holder, amount: u32, location: ApiLocation)
    modifies holder
    ensures var l := if location == ApiGlobal then Global else Local;
      holder.Contents() == old(holder.Contents()).(instructions := old(holder.instructions) + [Some(FrameFree(amount, l))])
  {
    CodeGen.GenerateFrameFree(holder, amount, AsRvm(location));
  }

  /** generate_alloc of the level-1 API (api/level_1/mod.rs:3-5). */
  method Level1GenerateAlloc(holder: CodeGen.Holder, amount: u32)
    modifies holder
    ensures holder.Contents() == old(holder.Contents()).(instructions := old(holder.instructions) + [Some(Alloc(amount))])
    ensures |holder.instructions| == |old(holder.instructions)| + 1
  {
    CodeGen.GenerateAlloc(holder, amount);
  }

  /** The level-1 CodeBuilder: the holder it writes to and its label table, a
      name for each recorded instruction position. */
  class CodeBuilder {
    const codeHolder: CodeGen.Holder
    var funcSymbols: map<Str, nat>

    constructor (codeHolder: CodeGen.Holder, funcSymbols: map<Str, nat>)
      ensures this.codeHolder == codeHolder && this.funcSymbols == funcSymbols
    {
      this.codeHolder := codeHolder;
      this.funcSymbols := funcSymbols;
    }

    /** create_label (level_1/abstraction.rs:4-6): the name now stands for the
        current instruction count, replacing any earlier position; other labels
        and the instructions are unchanged. */
    method CreateLabel(name: Str)
      modifies this
      ensures funcSymbols == old(funcSymbols)[name := |codeHolder.instructions|]
    {
      funcSymbols := funcSymbols[name := |codeHolder.instructions|];
    }

    /** generate_alloc (level_1/generate_instruction.rs:6-8). */
    method GenerateAlloc(blockCount: u32)
      modifies codeHolder
      ensures codeHolder.Contents() == old(codeHolder.Contents()).(instructions :=
        old(codeHolder.instructions) + [Some(Alloc(blockCount))])
    {
      codeHolder.Push(Alloc(blockCount));
    }

    /** generate_free (level_1/generate_instruction.rs:9-11). */
    method GenerateFree(blockCount: u32)
      modifies codeHolder
      ensures codeHolder.Contents() == old(codeHolder.Contents()).(instructions :=
        old(codeHolder.instructions) + [Some(Free(blockCount))])
    {
      codeHolder.Push(Free(blockCount));
    }

    /** generate_jump (level_1/generate_instruction.rs:12-14). */
    method GenerateJump(operationCount: i64)
      modifies codeHolder
      ensures codeHolder.Contents() == old(codeHolder.Contents()).(instructions :=
        old(codeHolder.instructions) + [Some(Jump(operationCount))])
    {
      codeHolder.Push(Jump(operationCount));
    }

    /** generate_call (level_1/generate_instruction.rs:15-18): a Call to the
        label's recorded position, cast to u64. An unknown label panics at the
        `expect` before anything is appended. */
    method GenerateCall(functionAddr: Str)
      requires functionAddr in funcSymbols
      modifies codeHolder
      ensures codeHolder.Contents() == old(codeHolder.Contents()).(instructions :=
        old(codeHolder.instructions) + [Some(Call(funcSymbols[functionAddr] % U64_LIMIT))])
    {
      var address := funcSymbols[functionAddr] % U64_LIMIT;
      codeHolder.Push(Call(address));
    }

    /** A label created just before a call names the call's own position: the
        call targets itself. */
    method LabelThenCall(name: Str)
      requires |codeHolder.instructions| < U64_LIMIT
      modifies this, codeHolder
      ensures funcSymbols == old(funcSymbols)[name := |old(codeHolder.instructions)|]
      ensures codeHolder.Contents() == old(codeHolder.Contents()).(instructions :=
        old(codeHolder.instructions) + [Some(Call(|old(codeHolder.instructions)|))])
    {
      CreateLabel(name);
      GenerateCall(name);
    }
  }
}
