/** The interpreter as an object whose fields the instruction methods update in
    place (src/internal/interpreter/). Every method is proved to leave exactly
    the state, and return exactly the error, that module Machine describes. */
module Interp {
  import opened Types
  import opened Machine

  /** `StackFrame::from` (stackframe.rs:14-20): a fresh register vector resized to
      `size` registers filled with Int(0). */
  method StackFrameFrom(size: nat) returns (frame: Frame)
    ensures frame == NewFrame(size)
  {
    frame := [];
    while |frame| < size
      invariant |frame| <= size
      invariant forall j :: 0 <= j < |frame| ==> frame[j] == Some(Int(0))
    {
      frame := frame + [Some(Int(0))];
    }
  }

  /** Registrations keep `native`, `native_func` and `func` in step (imports.rs:9-12). */
  predicate Consistent(f: RustFunc) {
    (f.native <==> f.nativeFunc.Some?) && (f.nativeFunc.Some? <==> f.func.None?)
  }

  class Interpreter {
    var acc: u64
    var global: seq<Option<Constant>>
    var callStack: seq<Frame>
    var stack: seq<Constant>
    var rustFunctions: seq<RustFunc>
    var byteToInternal: seq<nat>
    var resolvedImports: bool
    const env: Env

    /** The fields as one value. */
    function St(): State
      reads this
    {
      State(acc, global, callStack, stack, rustFunctions, byteToInternal, resolvedImports)
    }

    predicate RegistryValid()
      reads this
    {
      forall k :: 0 <= k < |rustFunctions| ==> Consistent(rustFunctions[k])
    }

    /** `Interpreter::new` (mod.rs:25-32) over a code holder and host. */
    constructor (env: Env)
      ensures St() == Initial() && this.env == env
      ensures RegistryValid()
    {
      acc := 0;
      global := [];
      callStack := [];
      stack := [];
      rustFunctions := [];
      byteToInternal := [];
      resolvedImports := false;
      this.env := env;
    }

    // -------------------------------------------------------------------------
    // Registration (imports.rs).

    /** register_function (imports.rs:19-30): append an entry for a Rust function. */
    method RegisterFunction(fn: nat, funcName: Str)
      requires RegistryValid()
      modifies this
      ensures St() == old(St()).(funcs := old(rustFunctions) + [RustFunc(funcName, Some(fn), false, None)])
      ensures RegistryValid()
    {
      rustFunctions := rustFunctions + [RustFunc(funcName, Some(fn), false, None)];
    }

    /** register_native_function (imports.rs:32-43): append an entry for a C function. */
    method RegisterNativeFunction(fn: nat, funcName: Str)
      requires RegistryValid()
      modifies this
      ensures St() == old(St()).(funcs := old(rustFunctions) + [RustFunc(funcName, None, true, Some(fn))])
      ensures RegistryValid()
    {
      rustFunctions := rustFunctions + [RustFunc(funcName, None, true, Some(fn))];
    }

    /** resolve_imports (resolve_imports.rs:8-29): for each import in order push the
        index of every registration with its name; stop at the first import that
        has none, leaving what was pushed. */
    method ResolveImports() returns (ok: bool)
      modifies this
      ensures (St(), ok) == Machine.ResolveImports(env, old(St()))
    {
      var i := 0;
      while i < |env.imports|
        invariant i <= |env.imports|
        invariant Resolve(rustFunctions, env.imports, old(byteToInternal)) ==
                  Resolve(rustFunctions, env.imports[i..], byteToInternal)
        invariant St() == old(St()).(table := byteToInternal)
      {
        ghost var before := byteToInternal;
        ghost var goal := Resolve(rustFunctions, env.imports[i..], before);
        var success := PushMatches(env.imports[i]);
        if !success {
          assert byteToInternal == before + [];
          assert env.imports[i..][0] == env.imports[i];
          assert goal == (before, false);
          assert rustFunctions == old(rustFunctions);
          assert Resolve(old(rustFunctions), env.imports, old(byteToInternal)) == (before, false);
          assert St() == old(St()).(table := before);
          return false;
        }
        assert env.imports[i..][1..] == env.imports[i + 1..];
        i := i + 1;
      }
      resolvedImports := true;
      return true;
    }

    /** The inner loop of resolve_imports (resolve_imports.rs:12-18): push the index of
        every registration named `name`, and report whether there was one. */
    method PushMatches(name: Str) returns (success: bool)
      modifies this
      ensures var m := Matches(rustFunctions, name, |rustFunctions|);
              St() == old(St()).(table := old(byteToInternal) + m) && (success <==> m != [])
    {
      success := false;
      var j := 0;
      while j < |rustFunctions|
        invariant j <= |rustFunctions|
        invariant byteToInternal == old(byteToInternal) + Matches(rustFunctions, name, j)
        invariant success <==> Matches(rustFunctions, name, j) != []
        invariant St() == old(St()).(table := byteToInternal)
      {
        if rustFunctions[j].name == name {
          byteToInternal := byteToInternal + [j];
          success := true;
        }
        j := j + 1;
      }
    }

    // -------------------------------------------------------------------------
    // Register access (utils/mod.rs).

    /** mov_global (utils/mod.rs:14-27). */
    method TakeGlobal(i: nat) returns (r: Result<Constant, ErrorKind>)
      modifies this
      ensures match MovGlobal(old(St()), i)
              case Ok(t) => r == Ok(t.value) && St() == t.st
              case Err(e) => r == Err(e) && St() == old(St())
    {
      if i >= |global| {
        return Err(RegisterOutOfBounds);
      }
      var reg := global[i];
      global := global[i := None];
      if reg.None? {
        return Err(MemoryAddressNone);
      }
      return Ok(reg.value);
    }

    /** mov_local (utils/mod.rs:57-60): take a register of the top frame. */
    method TakeLocal(i: nat) returns (v: Constant)
      requires LocalFull(St(), i)
      modifies this
      ensures Took(v, St()) == MovLocal(old(St()), i)
    {
      var top := callStack[|callStack| - 1];
      v := top[i].value;
      callStack := callStack[|callStack| - 1 := top[i := None]];
    }

    /** `stack_frame.registers[i] = v` on the top frame. */
    method StoreLocal(i: nat, v: Option<Constant>)
      requires LocalIn(St(), i)
      modifies this
      ensures St() == SetLocal(old(St()), i, v)
    {
      var top := callStack[|callStack| - 1];
      callStack := callStack[|callStack| - 1 := top[i := v]];
    }

    /** The accumulator arms shared by mov, cpy and stack_mov. */
    method StoreAccumulator(v: Constant, e: ErrorKind) returns (fault: Option<ErrorKind>)
      modifies this
      ensures Effect(St(), fault) == ToAcc(env.fu, old(St()), v, e)
    {
      match v {
        case Int(i) => acc := env.fu.ofInt(i); fault := None;
        case Double(b) => acc := b; fault := None;
        case _ => fault := Some(e);
      }
    }

    // -------------------------------------------------------------------------
    // Instructions.

    /** mov_registers (mov.rs:10-91); the arms of its match are grouped by the
        destination's location. */
    method MovRegisters(dst: Register, dref: RegisterReference, src: Register, sref: RegisterReference)
      returns (fault: Option<ErrorKind>)
      requires MovDefined(St(), dst, dref, src, sref)
      modifies this
      ensures Effect(St(), fault) == Move(env.fu, old(St()), dst, dref, src, sref)
    {
      var d := Target(St(), dst, dref);
      var r := Target(St(), src, sref);
      if d.loc == Accumulator {
        fault := MovIntoAccumulator(d, r);
      } else if d.loc == Global {
        fault := MovIntoGlobal(d, r);
      } else if d.loc == Local {
        fault := MovIntoLocal(d, r);
      } else {
        fault := Some(InvalidOperation);
      }
    }

    /** The arms of mov_registers whose destination is the accumulator. */
    method MovIntoAccumulator(d: Register, r: Register) returns (fault: Option<ErrorKind>)
      requires d.loc == Accumulator && MovCaseOk(St(), d, r)
      modifies this
      ensures Effect(St(), fault) == MovCase(env.fu, old(St()), d, r)
    {
      if r.loc == Global {
        var v := TakeGlobal(r.index);
        if v.Err? {
          return Some(v.error);
        }
        fault := StoreAccumulator(v.value, InvalidOperation);
      } else if r.loc == Local {
        var v := TakeLocal(r.index);
        fault := StoreAccumulator(v, InvalidOperation);
      } else {
        fault := Some(InvalidOperation);
      }
    }

    /** The arms of mov_registers whose destination is a global. */
    method MovIntoGlobal(d: Register, r: Register) returns (fault: Option<ErrorKind>)
      requires d.loc == Global && MovCaseOk(St(), d, r)
      modifies this
      ensures Effect(St(), fault) == MovCase(env.fu, old(St()), d, r)
    {
      fault := None;
      if r.loc == Accumulator {
        global := global[d.index := Some(Double(acc))];
      } else if r.loc == Global {
        var v := TakeGlobal(r.index);
        if v.Err? {
          return Some(v.error);
        }
        global := global[d.index := Some(v.value)];
      } else if r.loc == Local {
        var v := TakeLocal(r.index);
        global := global[d.index := Some(v)];
      } else {
        fault := Some(InvalidOperation);
      }
    }

    /** The arms of mov_registers whose destination is a local. */
    method MovIntoLocal(d: Register, r: Register) returns (fault: Option<ErrorKind>)
      requires d.loc == Local && MovCaseOk(St(), d, r)
      modifies this
      ensures Effect(St(), fault) == MovCase(env.fu, old(St()), d, r)
    {
      fault := None;
      if r.loc == Accumulator {
        StoreLocal(d.index, Some(Double(acc)));
      } else if r.loc == Global {
        var v := TakeGlobal(r.index);
        if v.Err? {
          return Some(v.error);
        }
        StoreLocal(d.index, Some(v.value));
      } else if r.loc == Local {
        var v := TakeLocal(r.index);
        StoreLocal(d.index, Some(v));
      } else {
        fault := Some(InvalidOperation);
      }
    }

    /** stack_mov (mov.rs:93-135). */
    method StackMov(dst: Register, dref: RegisterReference) returns (fault: Option<ErrorKind>)
      requires StackMovDefined(St(), dst, dref)
      modifies this
      ensures Effect(St(), fault) == PopInto(env.fu, old(St()), dst, dref)
    {
      var d := Target(St(), dst, dref);
      if |stack| == 0 {
        return Some(InvalidOperation);
      }
      var popped := stack[|stack| - 1];
      stack := stack[..|stack| - 1];
      fault := None;
      match d.loc {
        case ConstantPool => fault := Some(InvalidOperation);
        case Accumulator => fault := StoreAccumulator(popped, InvalidOperation);
        case Global => global := global[d.index := Some(popped)];
        case Local => StoreLocal(d.index, Some(popped));
      }
    }

    /** cpy_registers (cpy.rs:8-92). */
    method CpyRegisters(dst: Register, dref: RegisterReference, src: Register, sref: RegisterReference)
      returns (fault: Option<ErrorKind>)
      requires CpyDefined(env, St(), dst, dref, src, sref)
      modifies this
      ensures Effect(St(), fault) == Copy(env, old(St()), dst, dref, src, sref)
    {
      var d := Target(St(), dst, dref);
      var r := Target(St(), src, sref);
      fault := None;
      match (d.loc, r.loc) {
        case (Accumulator, Global) =>
          var v := CpyGlobal(St(), r.index);
          if v.Err? {
            return Some(v.error);
          }
          fault := StoreAccumulator(v.value, InvalidInput);
        case (Accumulator, Local) =>
          fault := StoreAccumulator(CpyLocal(St(), r.index), InvalidInput);
        case (Global, ConstantPool) =>
          global := global[d.index := Some(env.pool[r.index])];
        case (Global, Accumulator) =>
          global := global[d.index := Some(Double(acc))];
        case (Global, Global) =>
          var v := CpyGlobal(St(), r.index);
          if v.Err? {
            return Some(v.error);
          }
          global := global[d.index := Some(v.value)];
        case (Global, Local) =>
          global := global[d.index := Some(CpyLocal(St(), r.index))];
        case (Local, ConstantPool) =>
          StoreLocal(d.index, Some(env.pool[r.index]));
        case (Local, Accumulator) =>
          StoreLocal(d.index, Some(Double(acc)));
        case (Local, Global) =>
          var v := CpyGlobal(St(), r.index);
          if v.Err? {
            return Some(v.error);
          }
          StoreLocal(d.index, Some(v.value));
        case (Local, Local) =>
          StoreLocal(d.index, Some(CpyLocal(St(), r.index)));
        case _ =>
          fault := Some(InvalidInput);
      }
    }

    /** ref_registers (ref_reg.rs:7-36). */
    method RefRegisters(dst: Register, dref: RegisterReference, src: Register, sref: RegisterReference)
      returns (fault: Option<ErrorKind>)
      requires RefDefined(St(), dst, dref, src, sref)
      modifies this
      ensures Effect(St(), fault) == Reference(old(St()), dst, dref, src, sref)
    {
      var d := Target(St(), dst, dref);
      fault := None;
      match d.loc {
        case Global =>
          global := global[d.index := Some(Address(Target(St(), src, sref)))];
        case Local =>
          StoreLocal(d.index, Some(Address(Target(St(), src, sref))));
        case _ =>
          fault := Some(InvalidInput);
      }
    }

    /** push_on_stack (stk_push.rs:5-28). */
    method PushOnStack(reg: Register, rref: RegisterReference) returns (fault: Option<ErrorKind>)
      requires PushDefined(env, St(), reg, rref)
      modifies this
      ensures Effect(St(), fault) == Push(env, old(St()), reg, rref)
    {
      var r := Target(St(), reg, rref);
      fault := None;
      match r.loc {
        case ConstantPool => stack := stack + [env.pool[r.index]];
        case Accumulator => stack := stack + [Double(acc)];
        case Global =>
          var v := TakeGlobal(r.index);
          if v.Err? {
            return Some(v.error);
          }
          stack := stack + [v.value];
        case Local =>
          var v := TakeLocal(r.index);
          stack := stack + [v];
      }
    }

    /** mov_dst (math.rs:29-49). */
    method MovDst(d: Register, v: Constant)
      requires DstOk(St(), d, v)
      modifies this
      ensures St() == WriteDst(env.fu, old(St()), d, v)
    {
      match d.loc {
        case Accumulator =>
          var _ := StoreAccumulator(v, InvalidOperation);
        case Global => global := global[d.index := Some(v)];
        case Local => StoreLocal(d.index, Some(v));
      }
    }

    /** add, sub, mul and div (math.rs:51-73), which differ only in the value
        operation they call. */
    method Arithmetic(op: ArithOp, dst: Register, a: Register, b: Register) returns (fault: Option<ErrorKind>)
      requires MathDefined(env, St(), op, dst, a, b)
      modifies this
      ensures Effect(St(), fault) == Math(env, old(St()), op, dst, a, b)
    {
      var operands := Operands(env, St(), a, b);
      if operands.Err? {
        return Some(operands.error);
      }
      var value := Apply(env.fu, op, operands.value.0, operands.value.1);
      if value.Err? {
        return Some(value.error);
      }
      MovDst(dst, value.value);
      fault := None;
    }

    // -------------------------------------------------------------------------
    // The dispatch loop (execution_engine.rs).

    /** One turn of the loop on an instruction other than Call. */
    method StepInstruction(index: nat) returns (t: Transition)
      requires index < |env.code| && !env.code[index].Call?
      modifies this
      ensures t == Step(env, old(St()), index)
      ensures St() == (if t.Next? then t.st else t.fin.st)
    {
      var i := env.code[index];
      if IsControl(i) {
        t := ControlInstruction(i, index);
      } else if IsData(i) {
        t := DataInstruction(i, index);
      } else if IsArith(i) {
        t := ArithmeticInstruction(i, index);
      } else if IsComparison(i) {
        t := CompareStep(env, St(), i, index);
      } else {
        t := Stop(Final(St(), Unhandled));
      }
    }

    method ControlInstruction(i: Instruction, index: nat) returns (t: Transition)
      requires IsControl(i)
      modifies this
      ensures t == ControlStep(env, old(St()), i, index)
      ensures St() == (if t.Next? then t.st else t.fin.st)
    {
      match i {
        case Alloc(n) =>
          var frame := StackFrameFrom(n);
          callStack := callStack + [frame];
          t := Next(St(), index + 1);
        case Free(n) =>
          FreeFrames(n);
          t := Next(St(), index + 1);
        case Jump(k) =>
          t := Next(St(), (index + k) % U64_LIMIT);
        case ExtCall(id) =>
          if id < |rustFunctions| && env.host(rustFunctions[id], stack) {
            t := Next(St(), index + 1);
          } else {
            t := Stop(Final(St(), Panicked));
          }
        case StackPop =>
          if stack != [] {
            stack := stack[..|stack| - 1];
          }
          t := Next(St(), index + 1);
      }
    }

    method DataInstruction(i: Instruction, index: nat) returns (t: Transition)
      requires IsData(i)
      modifies this
      ensures t == DataStep(env, old(St()), i, index)
      ensures St() == (if t.Next? then t.st else t.fin.st)
    {
      match i {
        case Mov(d, dr, r, rr) =>
          if !MovDefined(St(), d, dr, r, rr) {
            return Stop(Final(St(), Panicked));
          }
          var fault := MovRegisters(d, dr, r, rr);
          t := Propagate(Effect(St(), fault), index);
        case Cpy(d, dr, r, rr) =>
          if !CpyDefined(env, St(), d, dr, r, rr) {
            return Stop(Final(St(), Panicked));
          }
          var fault := CpyRegisters(d, dr, r, rr);
          t := Propagate(Effect(St(), fault), index);
        case Ref(d, dr, r, rr) =>
          if !RefDefined(St(), d, dr, r, rr) {
            return Stop(Final(St(), Panicked));
          }
          var fault := RefRegisters(d, dr, r, rr);
          t := Propagate(Effect(St(), fault), index);
        case StackPush(r, rr) =>
          if !PushDefined(env, St(), r, rr) {
            return Stop(Final(St(), Panicked));
          }
          var _ := PushOnStack(r, rr);
          t := Next(St(), index + 1);
      }
    }

    /** An arithmetic arm: the loop does not look at the result. */
    method ArithmeticInstruction(i: Instruction, index: nat) returns (t: Transition)
      requires IsArith(i)
      modifies this
      ensures t == ArithStep(env, old(St()), i, index)
      ensures St() == (if t.Next? then t.st else t.fin.st)
    {
      var op := OpOf(i);
      if !MathDefined(env, St(), op, i.dst, i.a, i.b) {
        return Stop(Final(St(), Panicked));
      }
      var _ := Arithmetic(op, i.dst, i.a, i.b);
      t := Next(St(), index + 1);
    }

    /** The Free arm (execution_engine.rs:18-22): pop `n` times, each pop on an
        empty call stack doing nothing. */
    method FreeFrames(n: nat)
      modifies this
      ensures St() == old(St()).(frames := old(callStack)[..|old(callStack)| - Min(n, |old(callStack)|)])
    {
      var k := 0;
      while k < n
        invariant k <= n
        invariant St() == old(St()).(frames := old(callStack)[..|old(callStack)| - Min(k, |old(callStack)|)])
      {
        if |callStack| > 0 {
          callStack := callStack[..|callStack| - 1];
        }
        k := k + 1;
      }
    }

    /** execute_instruction (execution_engine.rs:8-81) with a bound on loop turns
        and call depth. */
    method ExecuteInstruction(start: nat, fuel: nat) returns (halt: Halt)
      modifies this
      ensures Final(St(), halt) == Execute(env, old(St()), start, fuel)
      decreases fuel
    {
      if fuel == 0 {
        return OutOfFuel;
      }
      var ok := ResolveImports();
      if !ok {
        return Fault(MissingImports);
      }
      var index: nat := start;
      var f: nat := fuel - 1;
      ghost var goal := Execute(env, old(St()), start, fuel);
      while index != |env.code|
        invariant f < fuel
        invariant goal == Loop(env, St(), index, f)
        decreases f
      {
        if index > |env.code| {
          return Panicked;
        }
        if f == 0 {
          return OutOfFuel;
        }
        if env.code[index].Call? {
          var h := ExecuteInstruction(env.code[index].target, f - 1);
          if h != Finished {
            return h;
          }
          index := index + 1;
        } else {
          var t := StepInstruction(index);
          if t.Stop? {
            return t.fin.halt;
          }
          index := t.index;
        }
        f := f - 1;
      }
      return Finished;
    }
  }
}
