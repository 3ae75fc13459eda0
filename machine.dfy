/** The state of the register machine (src/internal/interpreter/mod.rs) and the
    meaning of each instruction as a function from state to state: the register
    utilities of utils/mod.rs, the instruction files under instruction/ and the
    dispatch loop of execution_engine.rs. The class in module Interp changes its
    fields step by step and is proved to agree with these functions.

    A `panic!`, an `unwrap` on None or an unchecked index is a precondition of the
    function that models the operation (the `...Defined` predicates); the dispatch
    loop checks them and stops with `Panicked` where the source would abort. */
module Machine {
  import opened Types
  import ConstantOps

  /** A stack frame's registers (stackframe.rs), each slot possibly emptied by a move. */
  type Frame = seq<Option<Constant>>

  /** A registered host function (imports.rs:6-13). The function pointers are
      opaque: an identifier stands for each. */
  datatype RustFunc = RustFunc(name: Str, func: Option<nat>, native: bool, nativeFunc: Option<nat>)

  /** Everything the interpreter changes while it runs: the accumulator (an f64,
      kept as its bit pattern), the globals, the call stack, the value stack, the
      registered functions and the import table with its `resolved_imports` flag. */
  datatype State = State(
    acc: u64,
    global: seq<Option<Constant>>,
    frames: seq<Frame>,
    stack: seq<Constant>,
    funcs: seq<RustFunc>,
    table: seq<nat>,
    resolved: bool)

  /** What stays fixed while the interpreter runs: the floating-point unit, the
      code holder's constant pool, instructions and import names, and the host
      functions, of which only their success on a given argument stack matters. */
  datatype Env = Env(
    fu: ConstantOps.FloatUnit,
    pool: seq<Constant>,
    code: seq<Instruction>,
    imports: seq<Str>,
    host: (RustFunc, seq<Constant>) -> bool)

  /** The state of `Interpreter::new` (mod.rs:25-32): accumulator 0.0, everything empty. */
  function Initial(): (s: State)
    ensures s.frames == [] && s.stack == [] && s.global == []
    ensures s.acc == 0 && s.funcs == [] && s.table == [] && !s.resolved
  {
    State(0, [], [], [], [], [], false)
  }

  /** `StackFrame::from(size)` (stackframe.rs:14-20): `size` registers, each Int(0). */
  function NewFrame(size: nat): (f: Frame)
    ensures |f| == size
    ensures forall j :: 0 <= j < size ==> f[j] == Some(Int(0))
  {
    seq(size, _ => Some(Int(0)))
  }

  // ---------------------------------------------------------------------------
  // Register access (utils/mod.rs).

  predicate HasTop(s: State) {
    |s.frames| > 0
  }

  /** The frame every Local register names: the top of the call stack. */
  function Top(s: State): Frame
    requires HasTop(s)
  {
    s.frames[|s.frames| - 1]
  }

  /** A Local register the top frame has. */
  predicate LocalIn(s: State, i: nat) {
    HasTop(s) && i < |Top(s)|
  }

  /** A Local register the top frame has and that holds a value. */
  predicate LocalFull(s: State, i: nat) {
    LocalIn(s, i) && Top(s)[i].Some?
  }

  function SetGlobal(s: State, i: nat, v: Option<Constant>): (t: State)
    requires i < |s.global|
    ensures |t.global| == |s.global| && t.frames == s.frames
  {
    s.(global := s.global[i := v])
  }

  function SetLocal(s: State, i: nat, v: Option<Constant>): (t: State)
    requires LocalIn(s, i)
    ensures |t.frames| == |s.frames| && LocalIn(t, i) && t.global == s.global
    ensures forall k :: 0 <= k < |s.frames| - 1 ==> t.frames[k] == s.frames[k]
  {
    s.(frames := s.frames[|s.frames| - 1 := Top(s)[i := v]])
  }

  /** A value taken out of a register, with the state left behind. */
  datatype Took = Took(value: Constant, st: State)

  /** mov_global (utils/mod.rs:14-27): an index past the end is REGISTER_OUT_OF_BOUNDS,
      an empty slot MEMORY_ADDRESS_NONE, and otherwise the slot's value is returned
      and the slot left empty. */
  function MovGlobal(s: State, i: nat): (r: Result<Took, ErrorKind>)
    ensures r.Err? <==> i >= |s.global| || s.global[i].None?
    ensures r.Err? ==> r.error == (if i >= |s.global| then RegisterOutOfBounds else MemoryAddressNone)
    ensures r.Ok? ==> Some(r.value.value) == s.global[i] &&
                      r.value.st == s.(global := s.global[i := None])
  {
    if i >= |s.global| then Err(RegisterOutOfBounds)
    else if s.global[i].None? then Err(MemoryAddressNone)
    else Ok(Took(s.global[i].value, SetGlobal(s, i, None)))
  }

  /** cpy_global (utils/mod.rs:32-45): the same checks as MovGlobal, but the slot keeps its value. */
  function CpyGlobal(s: State, i: nat): (r: Result<Constant, ErrorKind>)
    ensures r.Err? <==> MovGlobal(s, i).Err?
    ensures r.Err? ==> r.error == MovGlobal(s, i).error
    ensures r.Ok? ==> r.value == MovGlobal(s, i).value.value
  {
    if i >= |s.global| then Err(RegisterOutOfBounds)
    else if s.global[i].None? then Err(MemoryAddressNone)
    else Ok(s.global[i].value)
  }

  /** mov_local (utils/mod.rs:57-60): take the value of a register of the top frame. */
  function MovLocal(s: State, i: nat): (t: Took)
    requires LocalFull(s, i)
    ensures Some(t.value) == Top(s)[i] && LocalIn(t.st, i)
    ensures t.st == SetLocal(s, i, None)
  {
    Took(Top(s)[i].value, SetLocal(s, i, None))
  }

  /** cpy_local (utils/mod.rs:65-68). */
  function CpyLocal(s: State, i: nat): (v: Constant)
    requires LocalFull(s, i)
    ensures Some(v) == Top(s)[i]
  {
    Top(s)[i].value
  }

  /** dereference_register (utils/mod.rs:116-137) can only follow a Global or
      Local register that holds an Address; anything else panics. */
  predicate DerefOk(s: State, r: Register) {
    match r.loc
    case Global => r.index < |s.global| && s.global[r.index].Some? && s.global[r.index].value.Address?
    case Local => LocalFull(s, r.index) && Top(s)[r.index].value.Address?
    case _ => false
  }

  /** The register named by the Address that `r` holds. */
  function Deref(s: State, r: Register): (d: Register)
    requires DerefOk(s, r)
    ensures r.loc == Global ==> s.global[r.index] == Some(Address(d))
    ensures r.loc == Local ==> Top(s)[r.index] == Some(Address(d))
  {
    if r.loc == Global then s.global[r.index].value.reg else Top(s)[r.index].value.reg
  }

  predicate TargetOk(s: State, r: Register, rref: RegisterReference) {
    rref == Dereference ==> DerefOk(s, r)
  }

  /** An operand after the optional one-hop dereference every instruction does first. */
  function Target(s: State, r: Register, rref: RegisterReference): (d: Register)
    requires TargetOk(s, r, rref)
    ensures rref == AsIs ==> d == r
    ensures rref == Dereference ==> d == Deref(s, r)
  {
    if rref == Dereference then Deref(s, r) else r
  }

  // ---------------------------------------------------------------------------
  // Effects of the data-movement instructions.

  /** The state an instruction leaves and the error it returns, if any. Errors can
      come after part of the work is done (a value already taken or popped). */
  datatype Effect = Effect(st: State, fault: Option<ErrorKind>)

  /** Writing a value to the accumulator: an Int is converted, a Double stored,
      and anything else is the error `e` with the state as it is. */
  function ToAcc(fu: ConstantOps.FloatUnit, s: State, v: Constant, e: ErrorKind): (r: Effect)
    ensures r.fault.None? <==> IsNumeric(v)
    ensures r.fault.Some? ==> r == Effect(s, Some(e))
    ensures r.st.global == s.global && r.st.frames == s.frames && r.st.stack == s.stack
  {
    match v
    case Int(i) => Effect(s.(acc := fu.ofInt(i)), None)
    case Double(b) => Effect(s.(acc := b), None)
    case _ => Effect(s, Some(e))
  }

  /** The panics of mov_registers once both operands are resolved (mov.rs:31-89). */
  predicate MovCaseOk(s: State, d: Register, r: Register) {
    match (d.loc, r.loc)
    case (Accumulator, Local) => LocalFull(s, r.index)
    case (Global, Accumulator) => d.index < |s.global|
    case (Global, Global) => MovGlobal(s, r.index).Ok? ==> d.index < |s.global|
    case (Global, Local) => LocalFull(s, r.index) && d.index < |s.global|
    case (Local, Accumulator) => LocalIn(s, d.index)
    case (Local, Global) => MovGlobal(s, r.index).Ok? ==> LocalIn(s, d.index)
    case (Local, Local) => LocalFull(s, r.index) && LocalIn(s, d.index)
    case _ => true
  }

  predicate MovDefined(s: State, dst: Register, dref: RegisterReference, src: Register, sref: RegisterReference) {
    TargetOk(s, dst, dref) && TargetOk(s, src, sref) &&
    MovCaseOk(s, Target(s, dst, dref), Target(s, src, sref))
  }

  /** mov_registers on resolved operands (mov.rs:31-89). */
  function MovCase(fu: ConstantOps.FloatUnit, s: State, d: Register, r: Register): Effect
    requires MovCaseOk(s, d, r)
  {
    match (d.loc, r.loc)
    case (Accumulator, Global) =>
      (match MovGlobal(s, r.index)
       case Err(e) => Effect(s, Some(e))
       case Ok(t) => ToAcc(fu, t.st, t.value, InvalidOperation))
    case (Accumulator, Local) =>
      var t := MovLocal(s, r.index);
      ToAcc(fu, t.st, t.value, InvalidOperation)
    case (Global, Accumulator) => Effect(SetGlobal(s, d.index, Some(Double(s.acc))), None)
    case (Global, Global) =>
      (match MovGlobal(s, r.index)
       case Err(e) => Effect(s, Some(e))
       case Ok(t) => Effect(SetGlobal(t.st, d.index, Some(t.value)), None))
    case (Global, Local) =>
      var t := MovLocal(s, r.index);
      Effect(SetGlobal(t.st, d.index, Some(t.value)), None)
    case (Local, Accumulator) => Effect(SetLocal(s, d.index, Some(Double(s.acc))), None)
    case (Local, Global) =>
      (match MovGlobal(s, r.index)
       case Err(e) => Effect(s, Some(e))
       case Ok(t) => Effect(SetLocal(t.st, d.index, Some(t.value)), None))
    case (Local, Local) =>
      var t := MovLocal(s, r.index);
      Effect(SetLocal(t.st, d.index, Some(t.value)), None)
    case _ => Effect(s, Some(InvalidOperation))
  }

  /** mov_registers (mov.rs:10-91): resolve the destination, then the source, then move. */
  function Move(fu: ConstantOps.FloatUnit, s: State, dst: Register, dref: RegisterReference,
               src: Register, sref: RegisterReference): Effect
    requires MovDefined(s, dst, dref, src, sref)
  {
    MovCase(fu, s, Target(s, dst, dref), Target(s, src, sref))
  }

  /** The panics of stack_mov: the destination's dereference, then, once a value
      has been popped, an index past the end of the global table or the top frame. */
  predicate StackMovDefined(s: State, dst: Register, dref: RegisterReference) {
    TargetOk(s, dst, dref) &&
    (|s.stack| > 0 ==>
      var d := Target(s, dst, dref);
      (d.loc == Global ==> d.index < |s.global|) && (d.loc == Local ==> LocalIn(s, d.index)))
  }

  /** stack_mov (mov.rs:93-135). */
  function PopInto(fu: ConstantOps.FloatUnit, s: State, dst: Register, dref: RegisterReference): Effect
    requires StackMovDefined(s, dst, dref)
  {
    var d := Target(s, dst, dref);
    if |s.stack| == 0 then Effect(s, Some(InvalidOperation))
    else
      var v := s.stack[|s.stack| - 1];
      var popped := s.(stack := s.stack[..|s.stack| - 1]);
      match d.loc
      case ConstantPool => Effect(popped, Some(InvalidOperation))
      case Accumulator => ToAcc(fu, popped, v, InvalidOperation)
      case Global => Effect(SetGlobal(popped, d.index, Some(v)), None)
      case Local => Effect(SetLocal(popped, d.index, Some(v)), None)
  }

  /** The panics of cpy_registers once both operands are resolved (cpy.rs:29-90);
      a constant-pool index is unchecked, so it must be in range. */
  predicate CpyCaseOk(env: Env, s: State, d: Register, r: Register) {
    match (d.loc, r.loc)
    case (Accumulator, Local) => LocalFull(s, r.index)
    case (Global, ConstantPool) => r.index < |env.pool| && d.index < |s.global|
    case (Global, Accumulator) => d.index < |s.global|
    case (Global, Global) => CpyGlobal(s, r.index).Ok? ==> d.index < |s.global|
    case (Global, Local) => LocalFull(s, r.index) && d.index < |s.global|
    case (Local, ConstantPool) => r.index < |env.pool| && LocalIn(s, d.index)
    case (Local, Accumulator) => LocalIn(s, d.index)
    case (Local, Global) => CpyGlobal(s, r.index).Ok? ==> LocalIn(s, d.index)
    case (Local, Local) => LocalFull(s, r.index) && LocalIn(s, d.index)
    case _ => true
  }

  predicate CpyDefined(env: Env, s: State, dst: Register, dref: RegisterReference,
                       src: Register, sref: RegisterReference) {
    TargetOk(s, dst, dref) && TargetOk(s, src, sref) &&
    CpyCaseOk(env, s, Target(s, dst, dref), Target(s, src, sref))
  }

  /** cpy_registers on resolved operands (cpy.rs:29-90). */
  function CpyCase(env: Env, s: State, d: Register, r: Register): Effect
    requires CpyCaseOk(env, s, d, r)
  {
    match (d.loc, r.loc)
    case (Accumulator, Global) =>
      (match CpyGlobal(s, r.index)
       case Err(e) => Effect(s, Some(e))
       case Ok(v) => ToAcc(env.fu, s, v, InvalidInput))
    case (Accumulator, Local) => ToAcc(env.fu, s, CpyLocal(s, r.index), InvalidInput)
    case (Global, ConstantPool) => Effect(SetGlobal(s, d.index, Some(env.pool[r.index])), None)
    case (Global, Accumulator) => Effect(SetGlobal(s, d.index, Some(Double(s.acc))), None)
    case (Global, Global) =>
      (match CpyGlobal(s, r.index)
       case Err(e) => Effect(s, Some(e))
       case Ok(v) => Effect(SetGlobal(s, d.index, Some(v)), None))
    case (Global, Local) => Effect(SetGlobal(s, d.index, Some(CpyLocal(s, r.index))), None)
    case (Local, ConstantPool) => Effect(SetLocal(s, d.index, Some(env.pool[r.index])), None)
    case (Local, Accumulator) => Effect(SetLocal(s, d.index, Some(Double(s.acc))), None)
    case (Local, Global) =>
      (match CpyGlobal(s, r.index)
       case Err(e) => Effect(s, Some(e))
       case Ok(v) => Effect(SetLocal(s, d.index, Some(v)), None))
    case (Local, Local) => Effect(SetLocal(s, d.index, Some(CpyLocal(s, r.index))), None)
    case _ => Effect(s, Some(InvalidInput))
  }

  /** cpy_registers (cpy.rs:8-92). */
  function Copy(env: Env, s: State, dst: Register, dref: RegisterReference,
               src: Register, sref: RegisterReference): Effect
    requires CpyDefined(env, s, dst, dref, src, sref)
  {
    CpyCase(env, s, Target(s, dst, dref), Target(s, src, sref))
  }

  /** The panics of ref_registers: the destination's dereference, then for a Global
      or Local destination its index and the source's dereference. */
  predicate RefDefined(s: State, dst: Register, dref: RegisterReference,
                       src: Register, sref: RegisterReference) {
    TargetOk(s, dst, dref) &&
    var d := Target(s, dst, dref);
    (d.loc == Global ==> d.index < |s.global| && TargetOk(s, src, sref)) &&
    (d.loc == Local ==> LocalIn(s, d.index) && TargetOk(s, src, sref))
  }

  /** ref_registers (ref_reg.rs:7-36): store the Address of the (resolved) source. */
  function Reference(s: State, dst: Register, dref: RegisterReference,
               src: Register, sref: RegisterReference): Effect
    requires RefDefined(s, dst, dref, src, sref)
  {
    var d := Target(s, dst, dref);
    match d.loc
    case Global => Effect(SetGlobal(s, d.index, Some(Address(Target(s, src, sref)))), None)
    case Local => Effect(SetLocal(s, d.index, Some(Address(Target(s, src, sref)))), None)
    case _ => Effect(s, Some(InvalidInput))
  }

  /** The panics of push_on_stack: the dereference, an unchecked pool index and an
      empty or missing local register. */
  predicate PushDefined(env: Env, s: State, reg: Register, rref: RegisterReference) {
    TargetOk(s, reg, rref) &&
    var r := Target(s, reg, rref);
    (r.loc == ConstantPool ==> r.index < |env.pool|) && (r.loc == Local ==> LocalFull(s, r.index))
  }

  /** push_on_stack (stk_push.rs:5-28). */
  function Push(env: Env, s: State, reg: Register, rref: RegisterReference): Effect
    requires PushDefined(env, s, reg, rref)
  {
    var r := Target(s, reg, rref);
    match r.loc
    case ConstantPool => Effect(s.(stack := s.stack + [env.pool[r.index]]), None)
    case Accumulator => Effect(s.(stack := s.stack + [Double(s.acc)]), None)
    case Global =>
      (match MovGlobal(s, r.index)
       case Err(e) => Effect(s, Some(e))
       case Ok(t) => Effect(t.st.(stack := s.stack + [t.value]), None))
    case Local =>
      var t := MovLocal(s, r.index);
      Effect(t.st.(stack := s.stack + [t.value]), None)
  }

  // ---------------------------------------------------------------------------
  // Arithmetic (math.rs).

  /** One operand read by copy, as math.rs's get_constants does. */
  predicate ReadOk(env: Env, s: State, r: Register) {
    (r.loc == ConstantPool ==> r.index < |env.pool|) && (r.loc == Local ==> LocalFull(s, r.index))
  }

  function Read(env: Env, s: State, r: Register): (v: Result<Constant, ErrorKind>)
    requires ReadOk(env, s, r)
    ensures r.loc == Global ==> v == CpyGlobal(s, r.index)
    ensures r.loc != Global ==> v.Ok?
  {
    match r.loc
    case ConstantPool => Ok(env.pool[r.index])
    case Accumulator => Ok(Double(s.acc))
    case Global => CpyGlobal(s, r.index)
    case Local => Ok(CpyLocal(s, r.index))
  }

  /** get_constants (math.rs:6-28): the pair of two Accumulator operands panics. */
  predicate OperandsOk(env: Env, s: State, a: Register, b: Register) {
    !(a.loc == Accumulator && b.loc == Accumulator) &&
    ReadOk(env, s, a) && (Read(env, s, a).Ok? ==> ReadOk(env, s, b))
  }

  function Operands(env: Env, s: State, a: Register, b: Register): Result<(Constant, Constant), ErrorKind>
    requires OperandsOk(env, s, a, b)
  {
    var x :- Read(env, s, a);
    var y :- Read(env, s, b);
    Ok((x, y))
  }

  /** The arithmetic instructions the dispatch loop runs. */
  datatype ArithOp = AddOp | SubOp | MulOp | DivOp

  /** The value operation each math.rs method calls. `mul` calls `sub` (math.rs:65). */
  function Apply(fu: ConstantOps.FloatUnit, op: ArithOp, x: Constant, y: Constant): ConstantOps.Outcome {
    match op
    case AddOp => ConstantOps.Add(fu, x, y)
    case SubOp => ConstantOps.Sub(fu, x, y)
    case MulOp => ConstantOps.Sub(fu, x, y)
    case DivOp => ConstantOps.Div(fu, x, y)
  }

  /** mov_dst's panics (math.rs:34-48): a constant-pool destination, a
      non-numeric value for the accumulator, or an index past the end. */
  predicate DstOk(s: State, d: Register, v: Constant) {
    match d.loc
    case ConstantPool => false
    case Accumulator => IsNumeric(v)
    case Global => d.index < |s.global|
    case Local => LocalIn(s, d.index)
  }

  /** mov_dst (math.rs:29-49). */
  function WriteDst(fu: ConstantOps.FloatUnit, s: State, d: Register, v: Constant): (t: State)
    requires DstOk(s, d, v)
    ensures t.stack == s.stack && t.funcs == s.funcs && t.table == s.table
  {
    match d.loc
    case Accumulator => ToAcc(fu, s, v, InvalidOperation).st
    case Global => SetGlobal(s, d.index, Some(v))
    case Local => SetLocal(s, d.index, Some(v))
  }

  predicate MathDefined(env: Env, s: State, op: ArithOp, dst: Register, a: Register, b: Register) {
    OperandsOk(env, s, a, b) &&
    match Operands(env, s, a, b)
    case Err(_) => true
    case Ok(p) => var v := Apply(env.fu, op, p.0, p.1); v.Ok? ==> DstOk(s, dst, v.value)
  }

  /** add, sub, mul and div of math.rs:51-73: read both operands by copy, apply
      the operation, and write a successful result to `dst`; an error from the
      reads or from the value operation is returned and nothing is written. */
  function Math(env: Env, s: State, op: ArithOp, dst: Register, a: Register, b: Register): Effect
    requires MathDefined(env, s, op, dst, a, b)
  {
    match Operands(env, s, a, b)
    case Err(e) => Effect(s, Some(e))
    case Ok(p) =>
      (match Apply(env.fu, op, p.0, p.1)
       case Err(e) => Effect(s, Some(e))
       case Ok(v) => Effect(WriteDst(env.fu, s, dst, v), None))
  }

  // ---------------------------------------------------------------------------
  // Comparisons (cmp.rs). These read through the borrowing get_constants of
  // utils/mod.rs:140-222, whose global access panics on a missing or empty slot.

  predicate PeekOk(env: Env, s: State, r: Register) {
    match r.loc
    case ConstantPool => r.index < |env.pool|
    case Accumulator => true
    case Global => r.index < |s.global| && s.global[r.index].Some?
    case Local => LocalFull(s, r.index)
  }

  function Peek(env: Env, s: State, r: Register): Constant
    requires PeekOk(env, s, r)
  {
    match r.loc
    case ConstantPool => env.pool[r.index]
    case Accumulator => Double(s.acc)
    case Global => s.global[r.index].value
    case Local => CpyLocal(s, r.index)
  }

  /** equal (cmp.rs:8-24). */
  function Equality(fu: ConstantOps.FloatUnit, x: Constant, y: Constant): Result<bool, ErrorKind> {
    match (x, y)
    case (Int(a), Int(b)) => Ok(a == b)
    case (Int(a), Double(b)) => Ok(fu.eq(fu.ofInt(a), b))
    case (Double(a), Int(b)) => Ok(fu.eq(a, fu.ofInt(b)))
    case (Double(a), Double(b)) => Ok(fu.eq(a, b))
    case (String(a), String(b)) => Ok(a == b)
    case (Boolean(a), Boolean(b)) => Ok(a == b)
    case (Address(a), Address(b)) => Ok(a == b)
    case _ => Err(InvalidOperation)
  }

  /** not_equal (cmp.rs:30-46). */
  function Inequality(fu: ConstantOps.FloatUnit, x: Constant, y: Constant): Result<bool, ErrorKind> {
    match (x, y)
    case (Int(a), Int(b)) => Ok(a != b)
    case (Int(a), Double(b)) => Ok(!fu.eq(fu.ofInt(a), b))
    case (Double(a), Int(b)) => Ok(!fu.eq(a, fu.ofInt(b)))
    case (Double(a), Double(b)) => Ok(!fu.eq(a, b))
    case (String(a), String(b)) => Ok(a != b)
    case (Boolean(a), Boolean(b)) => Ok(a != b)
    case (Address(a), Address(b)) => Ok(a != b)
    case _ => Err(InvalidOperation)
  }

  /** The ordering comparisons. */
  datatype OrderOp = Gt | Lt | Ge | Le

  /** greater_than, less_than, greater_or_equal and less_or_equal (cmp.rs:52-107);
      a non-numeric operand panics. */
  function Order(fu: ConstantOps.FloatUnit, op: OrderOp, x: Constant, y: Constant): bool
    requires IsNumeric(x) && IsNumeric(y)
  {
    var a := if x.Int? then fu.ofInt(x.i) else x.bits;
    var b := if y.Int? then fu.ofInt(y.i) else y.bits;
    if x.Int? && y.Int? then
      match op
      case Gt => x.i > y.i
      case Lt => x.i < y.i
      case Ge => x.i >= y.i
      case Le => x.i <= y.i
    else
      match op
      case Gt => fu.lt(b, a)
      case Lt => fu.lt(a, b)
      case Ge => fu.le(b, a)
      case Le => fu.le(a, b)
  }

  // ---------------------------------------------------------------------------
  // Import resolution (resolve_imports.rs).

  /** The indices among the first `n` registrations whose name is `name`, in
      registration order: what the inner loop of resolve_imports pushes. */
  function Matches(funcs: seq<RustFunc>, name: Str, n: nat): (m: seq<nat>)
    requires n <= |funcs|
    ensures |m| <= n
    ensures forall k :: 0 <= k < |m| ==> m[k] < n
  {
    if n == 0 then []
    else Matches(funcs, name, n - 1) + (if funcs[n - 1].name == name then [n - 1] else [])
  }

  /** resolve_imports's outer loop from the import `imports[0]` on, with the table so
      far: the final table, and whether every import matched. */
  function Resolve(funcs: seq<RustFunc>, imports: seq<Str>, table: seq<nat>): (r: (seq<nat>, bool))
    ensures |table| <= |r.0| && r.0[..|table|] == table
  {
    if imports == [] then (table, true)
    else
      var m := Matches(funcs, imports[0], |funcs|);
      if m == [] then (table, false)
      else Resolve(funcs, imports[1..], table + m)
  }

  /** resolve_imports (resolve_imports.rs:8-29) as a state change: the table grows,
      and `resolved_imports` is set only on success. */
  function ResolveImports(env: Env, s: State): (r: (State, bool))
  {
    var (t, ok) := Resolve(s.funcs, env.imports, s.table);
    (if ok then s.(table := t, resolved := true) else s.(table := t), ok)
  }

  // ---------------------------------------------------------------------------
  // The dispatch loop (execution_engine.rs).

  /** How a run ends. `Unhandled` is an instruction the dispatch loop's match has
      no arm for (FrameAlloc, FrameFree, Ret, StackMov, Mod). */
  datatype Halt = Finished | Fault(kind: ErrorKind) | Panicked | Unhandled | OutOfFuel

  datatype Final = Final(st: State, halt: Halt)

  /** One turn of the loop on an instruction other than Call: go on at an index,
      or stop. */
  datatype Transition = Next(st: State, index: nat) | Stop(fin: Final)

  function Min(a: nat, b: nat): nat {
    if a < b then a else b
  }

  /** After an instruction whose error the loop propagates with `?`. */
  function Propagate(e: Effect, index: nat): Transition {
    if e.fault.Some? then Stop(Final(e.st, Fault(e.fault.value))) else Next(e.st, index + 1)
  }

  /** After a comparison: a true result skips the next instruction. */
  function Skip(s: State, index: nat, taken: bool): Transition {
    Next(s, if taken then index + 2 else index + 1)
  }

  function Compare(env: Env, s: State, index: nat, a: Register, b: Register, ne: bool): Transition {
    if !(PeekOk(env, s, a) && PeekOk(env, s, b)) then Stop(Final(s, Panicked))
    else
      var x := Peek(env, s, a);
      var y := Peek(env, s, b);
      match (if ne then Inequality(env.fu, x, y) else Equality(env.fu, x, y))
      case Err(e) => Stop(Final(s, Fault(e)))
      case Ok(t) => Skip(s, index, t)
  }

  function CompareOrder(env: Env, s: State, index: nat, op: OrderOp, a: Register, b: Register): Transition {
    if !(PeekOk(env, s, a) && PeekOk(env, s, b)) then Stop(Final(s, Panicked))
    else
      var x := Peek(env, s, a);
      var y := Peek(env, s, b);
      if !(IsNumeric(x) && IsNumeric(y)) then Stop(Final(s, Panicked))
      else Skip(s, index, Order(env.fu, op, x, y))
  }

  /** The arithmetic arms: an error is dropped, since the loop ignores the result. */
  function Arith(env: Env, s: State, index: nat, op: ArithOp, d: Register, a: Register, b: Register): Transition {
    if !MathDefined(env, s, op, d, a, b) then Stop(Final(s, Panicked))
    else Next(Math(env, s, op, d, a, b).st, index + 1)
  }

  predicate IsControl(i: Instruction) {
    i.Alloc? || i.Free? || i.Jump? || i.ExtCall? || i.StackPop?
  }

  predicate IsData(i: Instruction) {
    i.Mov? || i.Cpy? || i.Ref? || i.StackPush?
  }

  predicate IsArith(i: Instruction) {
    i.Add? || i.Sub? || i.Mul? || i.Div?
  }

  predicate IsComparison(i: Instruction) {
    i.Equal? || i.NotEqual? || i.Greater? || i.Less? || i.GreaterEqual? || i.LessEqual?
  }

  /** The arms that touch only the call stack, the value stack and the index
      (execution_engine.rs:15-29,36-38). */
  function ControlStep(env: Env, s: State, i: Instruction, index: nat): Transition
    requires IsControl(i)
  {
    if i.Alloc? then Next(s.(frames := s.frames + [NewFrame(i.size)]), index + 1)
    else if i.Free? then Next(s.(frames := s.frames[..|s.frames| - Min(i.count, |s.frames|)]), index + 1)
    else if i.Jump? then Next(s, (index + i.offset) % U64_LIMIT)
    else if i.ExtCall? then
      if i.id < |s.funcs| && env.host(s.funcs[i.id], s.stack) then Next(s, index + 1)
      else Stop(Final(s, Panicked))
    else Next(if s.stack == [] then s else s.(stack := s.stack[..|s.stack| - 1]), index + 1)
  }

  /** The mov, cpy, ref and push arms (execution_engine.rs:31-35): the first three
      propagate their error, the push's result is not looked at. */
  function DataStep(env: Env, s: State, i: Instruction, index: nat): Transition
    requires IsData(i)
  {
    if i.Mov? then
      if MovDefined(s, i.dst, i.dstRef, i.src, i.srcRef)
      then Propagate(Move(env.fu, s, i.dst, i.dstRef, i.src, i.srcRef), index)
      else Stop(Final(s, Panicked))
    else if i.Cpy? then
      if CpyDefined(env, s, i.dst, i.dstRef, i.src, i.srcRef)
      then Propagate(Copy(env, s, i.dst, i.dstRef, i.src, i.srcRef), index)
      else Stop(Final(s, Panicked))
    else if i.Ref? then
      if RefDefined(s, i.dst, i.dstRef, i.src, i.srcRef)
      then Propagate(Reference(s, i.dst, i.dstRef, i.src, i.srcRef), index)
      else Stop(Final(s, Panicked))
    else
      if PushDefined(env, s, i.reg, i.rref) then Next(Push(env, s, i.reg, i.rref).st, index + 1)
      else Stop(Final(s, Panicked))
  }

  function OpOf(i: Instruction): ArithOp
    requires IsArith(i)
  {
    if i.Add? then AddOp else if i.Sub? then SubOp else if i.Mul? then MulOp else DivOp
  }

  /** The arithmetic arms (execution_engine.rs:40-43). */
  function ArithStep(env: Env, s: State, i: Instruction, index: nat): Transition
    requires IsArith(i)
  {
    Arith(env, s, index, OpOf(i), i.dst, i.a, i.b)
  }

  /** The comparison arms (execution_engine.rs:45-74). */
  function CompareStep(env: Env, s: State, i: Instruction, index: nat): Transition
    requires IsComparison(i)
  {
    if i.Equal? then Compare(env, s, index, i.a, i.b, false)
    else if i.NotEqual? then Compare(env, s, index, i.a, i.b, true)
    else if i.Greater? then CompareOrder(env, s, index, Gt, i.a, i.b)
    else if i.Less? then CompareOrder(env, s, index, Lt, i.a, i.b)
    else if i.GreaterEqual? then CompareOrder(env, s, index, Ge, i.a, i.b)
    else CompareOrder(env, s, index, Le, i.a, i.b)
  }

  /** The body of the loop (execution_engine.rs:13-78) on an instruction other
      than Call; an instruction without an arm stops the run. */
  function Step(env: Env, s: State, index: nat): Transition
    requires index < |env.code| && !env.code[index].Call?
  {
    var i := env.code[index];
    if IsControl(i) then ControlStep(env, s, i, index)
    else if IsData(i) then DataStep(env, s, i, index)
    else if IsArith(i) then ArithStep(env, s, i, index)
    else if IsComparison(i) then CompareStep(env, s, i, index)
    else Stop(Final(s, Unhandled))
  }

  /** execute_instruction (execution_engine.rs:8-81) from `start`, with at most
      `fuel` loop turns and nested calls: resolve the imports, then loop. */
  function Execute(env: Env, s: State, start: nat, fuel: nat): Final
    decreases fuel, 1
  {
    if fuel == 0 then Final(s, OutOfFuel)
    else
      var (s1, ok) := ResolveImports(env, s);
      if !ok then Final(s1, Fault(MissingImports))
      else Loop(env, s1, start, fuel - 1)
  }

  /** The `while index != max_length` loop from `index`. An index past the end
      panics at the fetch; Call runs the callee to its end and continues after it. */
  function Loop(env: Env, s: State, index: nat, fuel: nat): Final
    decreases fuel, 0
  {
    if index == |env.code| then Final(s, Finished)
    else if index > |env.code| then Final(s, Panicked)
    else if fuel == 0 then Final(s, OutOfFuel)
    else if env.code[index].Call? then
      var r := Execute(env, s, env.code[index].target, fuel - 1);
      if r.halt == Finished then Loop(env, r.st, index + 1, fuel - 1) else r
    else
      match Step(env, s, index)
      case Next(t, j) => Loop(env, t, j, fuel - 1)
      case Stop(f) => f
  }
}
