/** What the instruction files of src/internal/interpreter promise, proved about
    the functions of module Machine: which register each instruction changes,
    what ends up there, which cases are rejected, and how the dispatch loop and
    import resolution behave. */
module MachineProps {
  import opened Types
  import opened Machine
  import ConstantOps

  // ---------------------------------------------------------------------------
  // Registers as places: a Global register or a Local register of the top frame.

  /** A register an instruction can store into: a global slot or a slot of the top frame. */
  predicate Addressable(s: State, r: Register) {
    (r.loc == Global && r.index < |s.global|) || (r.loc == Local && LocalIn(s, r.index))
  }

  function Slot(s: State, r: Register): Option<Constant>
    requires Addressable(s, r)
  {
    if r.loc == Global then s.global[r.index] else Top(s)[r.index]
  }

  /** `t` has the registers of `s` (same global table, same frames with the same
      sizes), and every slot outside `changed` holds what it held in `s`. */
  ghost predicate RegistersExcept(s: State, t: State, changed: set<Register>) {
    |t.global| == |s.global| && |t.frames| == |s.frames| &&
    (forall k :: 0 <= k < |s.frames| - 1 ==> t.frames[k] == s.frames[k]) &&
    (HasTop(s) ==> |Top(t)| == |Top(s)|) &&
    forall r :: Addressable(s, r) && r !in changed ==> Addressable(t, r) && Slot(t, r) == Slot(s, r)
  }

  /** Nothing but the registers differs between `s` and `t`. */
  predicate OnlyRegisters(s: State, t: State) {
    t.acc == s.acc && t.stack == s.stack && t.funcs == s.funcs && t.table == s.table && t.resolved == s.resolved
  }

  /** Storing into one register changes that register and no other. */
  lemma Store(s: State, d: Register, v: Option<Constant>) returns (t: State)
    requires Addressable(s, d)
    ensures t == (if d.loc == Global then SetGlobal(s, d.index, v) else SetLocal(s, d.index, v))
    ensures Addressable(t, d) && Slot(t, d) == v
    ensures RegistersExcept(s, t, {d}) && OnlyRegisters(s, t)
  {
    if d.loc == Global {
      t := SetGlobal(s, d.index, v);
    } else {
      t := SetLocal(s, d.index, v);
      forall r | Addressable(s, r) && r !in {d}
        ensures Addressable(t, r) && Slot(t, r) == Slot(s, r)
      {
        if r.loc == Local {
          assert r.index != d.index;
        }
      }
    }
  }

  /** Changes to disjoint sets of registers compose. */
  lemma ExceptTrans(s: State, t: State, u: State, a: set<Register>, b: set<Register>)
    requires RegistersExcept(s, t, a) && RegistersExcept(t, u, b)
    ensures RegistersExcept(s, u, a + b)
  {
    forall r | Addressable(s, r) && r !in a + b
      ensures Addressable(u, r) && Slot(u, r) == Slot(s, r)
    {
      assert Addressable(t, r) && Slot(t, r) == Slot(s, r);
    }
  }

  /** Taking a value out of a register empties it and leaves the others. */
  lemma TakeFrom(s: State, r: Register) returns (t: Took)
    requires Addressable(s, r) && Slot(s, r).Some?
    ensures r.loc == Global ==> MovGlobal(s, r.index) == Ok(t)
    ensures r.loc == Local ==> LocalFull(s, r.index) && MovLocal(s, r.index) == t
    ensures Some(t.value) == Slot(s, r) && Addressable(t.st, r) && Slot(t.st, r) == None
    ensures RegistersExcept(s, t.st, {r}) && OnlyRegisters(s, t.st)
  {
    var st := Store(s, r, None);
    t := Took(Slot(s, r).value, st);
  }

  // ---------------------------------------------------------------------------
  // mov_registers (mov.rs).

  /** Global←Global, Global←Local, Local←Global and Local←Local (mov.rs:66-83):
      the destination receives the source's old value, the source is left empty
      unless it is the destination, and no other register or field changes. */
  lemma MoveBetweenRegisters(fu: ConstantOps.FloatUnit, s: State, d: Register, r: Register)
    requires Addressable(s, d) && Addressable(s, r) && Slot(s, r).Some?
    ensures MovCaseOk(s, d, r)
    ensures var e := MovCase(fu, s, d, r);
      e.fault.None? && Addressable(e.st, d) && Slot(e.st, d) == Slot(s, r) &&
      (d != r ==> Addressable(e.st, r) && Slot(e.st, r) == None) &&
      RegistersExcept(s, e.st, {d, r}) && OnlyRegisters(s, e.st)
  {
    var t := TakeFrom(s, r);
    assert Addressable(t.st, d);
    var u := Store(t.st, d, Some(t.value));
    ExceptTrans(s, t.st, u, {r}, {d});
    assert MovCase(fu, s, d, r) == Effect(u, None);
    if d != r {
      assert Slot(u, r) == Slot(t.st, r);
    }
  }

  /** Moving out of an empty or missing global register is that register's
      error, with nothing changed (mov.rs:34,67,75 and utils/mod.rs:14-27). */
  lemma MoveFromBadGlobal(fu: ConstantOps.FloatUnit, s: State, d: Register, r: Register)
    requires r.loc == Global && d.loc != ConstantPool && MovGlobal(s, r.index).Err?
    ensures MovCaseOk(s, d, r)
    ensures MovCase(fu, s, d, r) == Effect(s, Some(MovGlobal(s, r.index).error))
  {
  }

  /** A register moved into the accumulator (mov.rs:32-64): a number sets the
      accumulator and empties the source; anything else is INVALID_OPERATION, and
      the value, already taken out, is lost. */
  lemma MoveIntoAccumulator(fu: ConstantOps.FloatUnit, s: State, d: Register, r: Register)
    requires d.loc == Accumulator && Addressable(s, r) && Slot(s, r).Some?
    ensures MovCaseOk(s, d, r)
    ensures var e := MovCase(fu, s, d, r);
      var v := Slot(s, r).value;
      Addressable(e.st, r) && Slot(e.st, r) == None && RegistersExcept(s, e.st, {r}) &&
      e.st.stack == s.stack &&
      (e.fault.None? <==> IsNumeric(v)) &&
      (e.fault.Some? ==> e.fault == Some(InvalidOperation) && e.st.acc == s.acc) &&
      (v.Int? ==> e.st.acc == fu.ofInt(v.i)) &&
      (v.Double? ==> e.st.acc == v.bits)
  {
    var t := TakeFrom(s, r);
    assert MovCase(fu, s, d, r) == ToAcc(fu, t.st, t.value, InvalidOperation);
  }

  /** Every combination with a ConstantPool operand, and Accumulator←Accumulator,
      is "Invalid MOV operation" with nothing changed (mov.rs:84-88). */
  lemma MoveRejected(fu: ConstantOps.FloatUnit, s: State, d: Register, r: Register)
    requires d.loc == ConstantPool || r.loc == ConstantPool || (d.loc == Accumulator && r.loc == Accumulator)
    ensures MovCaseOk(s, d, r)
    ensures MovCase(fu, s, d, r) == Effect(s, Some(InvalidOperation))
  {
  }

  /** A Dereference operand is replaced by the register its slot's Address names
      before anything moves (mov.rs:16-19,26-28). */
  lemma MoveDereferences(fu: ConstantOps.FloatUnit, s: State, dst: Register, src: Register, d: Register, r: Register)
    requires dst.loc in {Global, Local} && src.loc in {Global, Local}
    requires Addressable(s, dst) && Slot(s, dst) == Some(Address(d))
    requires Addressable(s, src) && Slot(s, src) == Some(Address(r))
    requires MovCaseOk(s, d, r)
    ensures MovDefined(s, dst, Dereference, src, Dereference)
    ensures Move(fu, s, dst, Dereference, src, Dereference) == MovCase(fu, s, d, r)
  {
  }

  // ---------------------------------------------------------------------------
  // stack_mov (mov.rs:93-135).

  /** An empty stack is an error and nothing changes (mov.rs:105-109). */
  lemma PopEmpty(fu: ConstantOps.FloatUnit, s: State, dst: Register, dref: RegisterReference)
    requires StackMovDefined(s, dst, dref) && s.stack == []
    ensures PopInto(fu, s, dst, dref) == Effect(s, Some(InvalidOperation))
  {
  }

  /** The top of the stack goes into a Global or Local register, and only there
      (mov.rs:110,128-132). */
  lemma PopIntoRegister(fu: ConstantOps.FloatUnit, s: State, d: Register)
    requires s.stack != [] && Addressable(s, d)
    ensures StackMovDefined(s, d, AsIs)
    ensures var e := PopInto(fu, s, d, AsIs);
      e.fault.None? && e.st.stack == s.stack[..|s.stack| - 1] &&
      Addressable(e.st, d) && Slot(e.st, d) == Some(s.stack[|s.stack| - 1]) &&
      RegistersExcept(s, e.st, {d}) && e.st.acc == s.acc
  {
    var popped := s.(stack := s.stack[..|s.stack| - 1]);
    var t := Store(popped, d, Some(s.stack[|s.stack| - 1]));
    assert PopInto(fu, s, d, AsIs) == Effect(t, None);
  }

  /** A ConstantPool destination is an error raised after the pop: the value is
      gone and no register changes (mov.rs:110-116). */
  lemma PopIntoConstantPool(fu: ConstantOps.FloatUnit, s: State, d: Register)
    requires s.stack != [] && d.loc == ConstantPool
    ensures StackMovDefined(s, d, AsIs)
    ensures PopInto(fu, s, d, AsIs) == Effect(s.(stack := s.stack[..|s.stack| - 1]), Some(InvalidOperation))
  {
  }

  // ---------------------------------------------------------------------------
  // cpy_registers (cpy.rs).

  /** Between Global and Local registers (cpy.rs:62-67,79-87): the destination
      receives the source's value and every other register, the source included,
      keeps its own. */
  lemma CopyBetweenRegisters(env: Env, s: State, d: Register, r: Register)
    requires Addressable(s, d) && Addressable(s, r) && Slot(s, r).Some?
    ensures CpyCaseOk(env, s, d, r)
    ensures var e := CpyCase(env, s, d, r);
      e.fault.None? && Addressable(e.st, d) && Slot(e.st, d) == Slot(s, r) &&
      Slot(e.st, r) == Slot(s, r) && RegistersExcept(s, e.st, {d}) && OnlyRegisters(s, e.st)
  {
    var t := Store(s, d, Slot(s, r));
    assert CpyCase(env, s, d, r) == Effect(t, None);
  }

  /** A constant-pool entry copied into a Global or Local register
      (cpy.rs:56-58,69-73); the pool is part of the fixed environment. */
  lemma CopyFromPool(env: Env, s: State, d: Register, r: Register)
    requires Addressable(s, d) && r.loc == ConstantPool && r.index < |env.pool|
    ensures CpyCaseOk(env, s, d, r)
    ensures var e := CpyCase(env, s, d, r);
      e.fault.None? && Slot(e.st, d) == Some(env.pool[r.index]) &&
      RegistersExcept(s, e.st, {d}) && OnlyRegisters(s, e.st)
  {
    var t := Store(s, d, Some(env.pool[r.index]));
    assert CpyCase(env, s, d, r) == Effect(t, None);
  }

  /** A register copied into the accumulator (cpy.rs:30-54): a number sets it, and
      anything else is InvalidInput; no register changes either way. */
  lemma CopyIntoAccumulator(env: Env, s: State, d: Register, r: Register)
    requires d.loc == Accumulator && Addressable(s, r) && Slot(s, r).Some?
    ensures CpyCaseOk(env, s, d, r)
    ensures var e := CpyCase(env, s, d, r);
      var v := Slot(s, r).value;
      (e.fault.None? <==> IsNumeric(v)) &&
      (e.fault.Some? ==> e == Effect(s, Some(InvalidInput))) &&
      e.st.global == s.global && e.st.frames == s.frames &&
      (v.Int? ==> e.st.acc == env.fu.ofInt(v.i)) && (v.Double? ==> e.st.acc == v.bits)
  {
  }

  /** A ConstantPool destination, Accumulator←ConstantPool and
      Accumulator←Accumulator are "Invalid cpy operation" (cpy.rs:89). */
  lemma CopyRejected(env: Env, s: State, d: Register, r: Register)
    requires d.loc == ConstantPool || (d.loc == Accumulator && r.loc in {ConstantPool, Accumulator})
    ensures CpyCaseOk(env, s, d, r)
    ensures CpyCase(env, s, d, r) == Effect(s, Some(InvalidInput))
  {
  }

  // ---------------------------------------------------------------------------
  // ref_registers (ref_reg.rs).

  /** A Global or Local destination receives the Address of the source register
      (resolved once if it is a Dereference), not its value; no other register,
      the source included, changes (ref_reg.rs:16-32). */
  lemma ReferenceStores(s: State, d: Register, src: Register, sref: RegisterReference)
    requires Addressable(s, d) && TargetOk(s, src, sref)
    ensures RefDefined(s, d, AsIs, src, sref)
    ensures var e := Reference(s, d, AsIs, src, sref);
      e.fault.None? && Slot(e.st, d) == Some(Address(Target(s, src, sref))) &&
      (sref == AsIs ==> Slot(e.st, d) == Some(Address(src))) &&
      RegistersExcept(s, e.st, {d}) && OnlyRegisters(s, e.st)
  {
    var t := Store(s, d, Some(Address(Target(s, src, sref))));
    assert Reference(s, d, AsIs, src, sref) == Effect(t, None);
  }

  /** A ConstantPool or Accumulator destination is an error with nothing changed (ref_reg.rs:33). */
  lemma ReferenceRejected(s: State, d: Register, src: Register, sref: RegisterReference)
    requires d.loc in {ConstantPool, Accumulator}
    ensures RefDefined(s, d, AsIs, src, sref)
    ensures Reference(s, d, AsIs, src, sref) == Effect(s, Some(InvalidInput))
  {
  }

  // ---------------------------------------------------------------------------
  // push_on_stack (stk_push.rs).

  /** On success the stack grows by exactly one value, on top: a copy of a pool
      entry, the accumulator, or the value moved out of a register, which is
      left empty (stk_push.rs:11-27). */
  lemma PushGrows(env: Env, s: State, r: Register)
    requires PushDefined(env, s, r, AsIs) && Push(env, s, r, AsIs).fault.None?
    ensures var e := Push(env, s, r, AsIs);
      |e.st.stack| == |s.stack| + 1 && e.st.stack[..|s.stack|] == s.stack &&
      e.st.acc == s.acc &&
      (r.loc == ConstantPool ==> e.st.stack[|s.stack|] == env.pool[r.index] && e.st == s.(stack := e.st.stack)) &&
      (r.loc == Accumulator ==> e.st.stack[|s.stack|] == Double(s.acc) && e.st == s.(stack := e.st.stack)) &&
      (Addressable(s, r) ==>
        Some(e.st.stack[|s.stack|]) == Slot(s, r) && Slot(e.st, r) == None && RegistersExcept(s, e.st, {r}))
  {
    var e := Push(env, s, r, AsIs);
    if r.loc in {Global, Local} {
      assert Addressable(s, r);
      var t := TakeFrom(s, r);
      assert e.st == t.st.(stack := s.stack + [t.value]);
    }
  }

  /** A missing or empty Global operand is returned as an error and the stack is
      unchanged (stk_push.rs:14-19). */
  lemma PushFromBadGlobal(env: Env, s: State, r: Register)
    requires r.loc == Global && MovGlobal(s, r.index).Err?
    ensures PushDefined(env, s, r, AsIs)
    ensures Push(env, s, r, AsIs) == Effect(s, Some(MovGlobal(s, r.index).error))
  {
  }

  // ---------------------------------------------------------------------------
  // math.rs.

  /** add, sub, mul and div read their operands by copy and write only the
      destination: a successful result lands in a Global or Local destination
      and no other register changes (math.rs:6-49). */
  lemma MathWritesDestination(env: Env, s: State, op: ArithOp, d: Register, a: Register, b: Register)
    requires MathDefined(env, s, op, d, a, b) && Addressable(s, d)
    requires Operands(env, s, a, b).Ok?
    requires Apply(env.fu, op, Operands(env, s, a, b).value.0, Operands(env, s, a, b).value.1).Ok?
    ensures var e := Math(env, s, op, d, a, b);
      var p := Operands(env, s, a, b).value;
      e.fault.None? && Read(env, s, a) == Ok(p.0) && Read(env, s, b) == Ok(p.1) &&
      Slot(e.st, d) == Some(Apply(env.fu, op, p.0, p.1).value) &&
      RegistersExcept(s, e.st, {d}) && OnlyRegisters(s, e.st)
  {
    var p := Operands(env, s, a, b).value;
    var t := Store(s, d, Some(Apply(env.fu, op, p.0, p.1).value));
    assert Math(env, s, op, d, a, b) == Effect(t, None);
  }

  /** The value get_constants reads for each kind of operand (math.rs:6-28): a
      Global or Local operand reads what its register holds, and fails exactly
      when the global register is missing or empty; a pool operand reads the
      pool entry; the accumulator reads as a Double of its bits. */
  lemma ReadOperand(env: Env, s: State, r: Register)
    requires ReadOk(env, s, r)
    ensures r.loc == Global || r.loc == Local ==>
      (Read(env, s, r).Ok? <==> Addressable(s, r) && Slot(s, r).Some?) &&
      (Read(env, s, r).Ok? ==> Slot(s, r) == Some(Read(env, s, r).value))
    ensures r.loc == Global && r.index >= |s.global| ==> Read(env, s, r) == Err(RegisterOutOfBounds)
    ensures r.loc == Global && r.index < |s.global| && s.global[r.index].None? ==>
      Read(env, s, r) == Err(MemoryAddressNone)
    ensures r.loc == ConstantPool ==> Read(env, s, r) == Ok(env.pool[r.index])
    ensures r.loc == Accumulator ==> Read(env, s, r) == Ok(Double(s.acc))
  {
  }

  /** An operand error or a value error is returned and nothing is written (math.rs:51-73). */
  lemma MathErrorWritesNothing(env: Env, s: State, op: ArithOp, d: Register, a: Register, b: Register)
    requires MathDefined(env, s, op, d, a, b)
    requires Operands(env, s, a, b).Err? ||
             Apply(env.fu, op, Operands(env, s, a, b).value.0, Operands(env, s, a, b).value.1).Err?
    ensures Math(env, s, op, d, a, b).st == s && Math(env, s, op, d, a, b).fault.Some?
  {
  }

  /** The operands are only read: both registers keep their values (math.rs:6-28). */
  lemma MathReadsByCopy(env: Env, s: State, op: ArithOp, d: Register, a: Register, b: Register)
    requires MathDefined(env, s, op, d, a, b) && Addressable(s, d)
    requires Addressable(s, a) && Addressable(s, b) && a != d && b != d
    ensures var e := Math(env, s, op, d, a, b);
      Slot(e.st, a) == Slot(s, a) && Slot(e.st, b) == Slot(s, b)
  {
    var e := Math(env, s, op, d, a, b);
    if e.st != s {
      MathWritesDestination(env, s, op, d, a, b);
    }
  }

  /** mul computes the difference, as the source's `mul` calls `sub`
      (math.rs:63-67): 5 mul 5 stores 0, where 25 is what the instruction's name means. */
  lemma MulSubtracts(env: Env, s: State, d: Register)
    requires |env.pool| >= 1 && env.pool[0] == Int(5) && Addressable(s, d)
    ensures var a := Register(0, ConstantPool);
      MathDefined(env, s, MulOp, d, a, a) &&
      Slot(Math(env, s, MulOp, d, a, a).st, d) == Some(Int(0)) &&
      ConstantOps.Mul(env.fu, Int(5), Int(5)) == Ok(Int(25))
  {
    var a := Register(0, ConstantPool);
    assert Operands(env, s, a, a) == Ok((Int(5), Int(5)));
    ConstantOps.SubInt(env.fu, 5, 5);
    ConstantOps.MulInt(env.fu, 5, 5);
    MathWritesDestination(env, s, MulOp, d, a, a);
  }

  // ---------------------------------------------------------------------------
  // cmp.rs.

  /** not_equal is the negation of equal wherever equal is defined, and both
      reject the same pairs (cmp.rs:8-46). */
  lemma InequalityNegatesEquality(fu: ConstantOps.FloatUnit, x: Constant, y: Constant)
    ensures Inequality(fu, x, y).Ok? <==> Equality(fu, x, y).Ok?
    ensures Inequality(fu, x, y).Ok? ==> Inequality(fu, x, y).value == !Equality(fu, x, y).value
    ensures Inequality(fu, x, y).Err? ==> Inequality(fu, x, y) == Equality(fu, x, y)
  {
  }

  /** Two values of the same kind among Int, String, Boolean and Address compare
      by ordinary equality (cmp.rs:11-17). */
  lemma EqualityOnSameKind(fu: ConstantOps.FloatUnit, x: Constant, y: Constant)
    requires (x.Int? && y.Int?) || (x.String? && y.String?) || (x.Boolean? && y.Boolean?) ||
             (x.Address? && y.Address?)
    ensures Equality(fu, x, y) == Ok(x == y)
  {
  }

  /** Values of different kinds, other than an Int against a Double, and any Vec,
      are INVALID_OPERATION (cmp.rs:18-22,40-44). */
  lemma EqualityRejects(fu: ConstantOps.FloatUnit, x: Constant, y: Constant)
    ensures Equality(fu, x, y).Err? <==>
      !(IsNumeric(x) && IsNumeric(y)) &&
      !((x.String? && y.String?) || (x.Boolean? && y.Boolean?) || (x.Address? && y.Address?))
    ensures Equality(fu, x, y).Err? ==> Equality(fu, x, y).error == InvalidOperation
  {
  }

  /** Ordering on two Ints is integer ordering, and greater_or_equal and
      less_or_equal are the negations of less_than and greater_than
      (cmp.rs:55,70,86,101). */
  lemma OrderOnInts(fu: ConstantOps.FloatUnit, a: i64, b: i64)
    ensures Order(fu, Gt, Int(a), Int(b)) == (a > b) && Order(fu, Lt, Int(a), Int(b)) == (a < b)
    ensures Order(fu, Ge, Int(a), Int(b)) == !Order(fu, Lt, Int(a), Int(b))
    ensures Order(fu, Le, Int(a), Int(b)) == !Order(fu, Gt, Int(a), Int(b))
  {
  }

  /** greater_than is less_than with its operands swapped, and likewise for the
      non-strict pair, whatever the operands' kinds (cmp.rs:52-107). */
  lemma OrderSwaps(fu: ConstantOps.FloatUnit, x: Constant, y: Constant)
    requires IsNumeric(x) && IsNumeric(y)
    ensures Order(fu, Gt, x, y) == Order(fu, Lt, y, x)
    ensures Order(fu, Ge, x, y) == Order(fu, Le, y, x)
  {
  }
}
