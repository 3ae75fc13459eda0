/** What execution_engine.rs and resolve_imports.rs promise, proved about
    Machine's Resolve, Step, Loop and Execute. */
module EngineProps {
  import opened Types
  import opened Machine

  // ---------------------------------------------------------------------------
  // Import resolution (resolve_imports.rs).

  /** Some registered function carries this name. */
  predicate Provided(funcs: seq<RustFunc>, name: Str) {
    exists k :: 0 <= k < |funcs| && funcs[k].name == name
  }

  /** The indices of all registrations of each import, import after import: the
      table a full resolution appends. */
  function AllMatches(funcs: seq<RustFunc>, imports: seq<Str>): seq<nat> {
    if imports == [] then [] else Matches(funcs, imports[0], |funcs|) + AllMatches(funcs, imports[1..])
  }

  predicate Increasing(m: seq<nat>) {
    forall j, k :: 0 <= j < k < |m| ==> m[j] < m[k]
  }

  /** The inner loop finds exactly the registrations with the import's name, in
      registration order, so a duplicate name yields several indices
      (resolve_imports.rs:11-18). */
  lemma {:induction false} MatchesExactly(funcs: seq<RustFunc>, name: Str, n: nat)
    requires n <= |funcs|
    ensures forall k: nat :: k in Matches(funcs, name, n) <==> k < n && funcs[k].name == name
    ensures Increasing(Matches(funcs, name, n))
  {
    if n > 0 {
      MatchesExactly(funcs, name, n - 1);
      var m0 := Matches(funcs, name, n - 1);
      var m := Matches(funcs, name, n);
      assert m == m0 + (if funcs[n - 1].name == name then [n - 1] else []);
      forall j, k | 0 <= j < k < |m| ensures m[j] < m[k] {
        assert m[j] == m0[j];
        if k >= |m0| {
          assert m[k] == n - 1;
          assert m0[j] < n - 1;
        } else {
          assert m[k] == m0[k];
        }
      }
    }
  }

  /** An import finds no match exactly when no registration has its name. */
  lemma NoMatchIffMissing(funcs: seq<RustFunc>, name: Str)
    ensures Matches(funcs, name, |funcs|) == [] <==> !Provided(funcs, name)
  {
    MatchesExactly(funcs, name, |funcs|);
    var m := Matches(funcs, name, |funcs|);
    if m != [] {
      assert m[0] in m;
    }
    if Provided(funcs, name) {
      var k :| 0 <= k < |funcs| && funcs[k].name == name;
      assert k in m;
    }
  }

  /** resolve_imports succeeds iff every import is provided, and then the table
      grows by the matches of every import in order (resolve_imports.rs:11-26). */
  lemma {:induction false} ResolveSucceeds(funcs: seq<RustFunc>, imports: seq<Str>, table: seq<nat>)
    ensures Resolve(funcs, imports, table).1 <==> forall j :: 0 <= j < |imports| ==> Provided(funcs, imports[j])
    ensures Resolve(funcs, imports, table).1 ==> Resolve(funcs, imports, table).0 == table + AllMatches(funcs, imports)
    decreases |imports|
  {
    if imports != [] {
      NoMatchIffMissing(funcs, imports[0]);
      var m := Matches(funcs, imports[0], |funcs|);
      if m != [] {
        ResolveSucceeds(funcs, imports[1..], table + m);
        assert forall j :: 1 <= j < |imports| ==> imports[j] == imports[1..][j - 1];
        if forall j :: 0 <= j < |imports[1..]| ==> Provided(funcs, imports[1..][j]) {
          forall j | 0 <= j < |imports| ensures Provided(funcs, imports[j]) {
            if j > 0 {
              assert imports[j] == imports[1..][j - 1];
            }
          }
        }
        assert table + m + AllMatches(funcs, imports[1..]) == table + AllMatches(funcs, imports);
      }
    }
  }

  /** A failure stops at the first missing import and keeps what the imports
      before it appended: resolution is not atomic (resolve_imports.rs:15,19-24). */
  lemma {:induction false} ResolveFailsAtFirstMissing(funcs: seq<RustFunc>, imports: seq<Str>, table: seq<nat>, j: nat)
    requires j < |imports| && !Provided(funcs, imports[j])
    requires forall i :: 0 <= i < j ==> Provided(funcs, imports[i])
    ensures Resolve(funcs, imports, table) == (table + AllMatches(funcs, imports[..j]), false)
    decreases j
  {
    NoMatchIffMissing(funcs, imports[0]);
    if j == 0 {
      assert imports[..0] == [];
      assert table + AllMatches(funcs, imports[..0]) == table;
    } else {
      var m := Matches(funcs, imports[0], |funcs|);
      assert Provided(funcs, imports[0]);
      forall i | 0 <= i < j - 1 ensures Provided(funcs, imports[1..][i]) {
        assert imports[1..][i] == imports[i + 1];
      }
      ResolveFailsAtFirstMissing(funcs, imports[1..], table + m, j - 1);
      assert imports[..j][0] == imports[0] && imports[..j][1..] == imports[1..][..j - 1];
      assert table + m + AllMatches(funcs, imports[1..][..j - 1]) == table + AllMatches(funcs, imports[..j]);
    }
  }

  /** A successful resolution sets `resolved_imports`; a failed one leaves the flag
      as it was; either way only the table and the flag change (resolve_imports.rs:8-29). */
  lemma ResolveImportsEffect(env: Env, s: State)
    ensures var (t, ok) := ResolveImports(env, s);
      (ok <==> forall j :: 0 <= j < |env.imports| ==> Provided(s.funcs, env.imports[j])) &&
      (ok ==> t == s.(table := s.table + AllMatches(s.funcs, env.imports), resolved := true)) &&
      (!ok ==> t.resolved == s.resolved) &&
      t == s.(table := t.table, resolved := t.resolved)
  {
    ResolveSucceeds(s.funcs, env.imports, s.table);
  }

  /** The table is never cleared: a second successful resolution appends the
      whole mapping again (resolve_imports.rs:10,15). */
  lemma ResolveTwiceAppendsTwice(env: Env, s: State)
    requires ResolveImports(env, s).1
    ensures var t := ResolveImports(env, ResolveImports(env, s).0);
      var m := AllMatches(s.funcs, env.imports);
      t.1 && t.0.table == s.table + m + m
  {
    var s1 := ResolveImports(env, s).0;
    ResolveImportsEffect(env, s);
    ResolveImportsEffect(env, s1);
  }

  /** An empty import list succeeds and appends nothing (resolve_imports.rs:11,26). */
  lemma ResolveNothing(env: Env, s: State)
    requires env.imports == []
    ensures ResolveImports(env, s) == (s.(resolved := true), true)
  {
  }

  // ---------------------------------------------------------------------------
  // The dispatch loop (execution_engine.rs).

  /** resolve_imports runs before any instruction, and a missing import aborts
      the run with no register, frame or stack touched (execution_engine.rs:9). */
  lemma MissingImportAborts(env: Env, s: State, start: nat, fuel: nat, j: nat)
    requires fuel > 0 && j < |env.imports| && !Provided(s.funcs, env.imports[j])
    ensures var r := Execute(env, s, start, fuel);
      r.halt == Fault(MissingImports) && r.st == s.(table := r.st.table)
  {
    ResolveImportsEffect(env, s);
  }

  /** Alloc(n) pushes exactly one frame of n registers, each Int(0), and changes
      nothing else (execution_engine.rs:15-17). */
  lemma AllocPushesFrame(env: Env, s: State, index: nat)
    requires index < |env.code| && env.code[index].Alloc?
    ensures Step(env, s, index).Next? && Step(env, s, index).index == index + 1
    ensures var t := Step(env, s, index).st;
      |t.frames| == |s.frames| + 1 && t.frames[..|s.frames|] == s.frames &&
      |t.frames[|s.frames|]| == env.code[index].size &&
      (forall k :: 0 <= k < env.code[index].size ==> t.frames[|s.frames|][k] == Some(Int(0))) &&
      t == s.(frames := t.frames)
  {
    assert (s.frames + [NewFrame(env.code[index].size)])[..|s.frames|] == s.frames;
  }

  /** Free(n) pops min(n, depth) frames; popping more frames than there are is
      not an error (execution_engine.rs:18-22). */
  lemma FreePopsFrames(env: Env, s: State, index: nat)
    requires index < |env.code| && env.code[index].Free?
    ensures Step(env, s, index).Next? && Step(env, s, index).index == index + 1
    ensures var t := Step(env, s, index).st;
      var n := env.code[index].count;
      (n >= |s.frames| ==> t.frames == []) &&
      (n < |s.frames| ==> t.frames == s.frames[..|s.frames| - n]) &&
      t == s.(frames := t.frames)
  {
  }

  /** Jump(k) moves the index by k alone, without the usual +1; the index is a
      usize, so a jump below 0 wraps around past the end of any program
      (execution_engine.rs:23-26). */
  lemma JumpMovesByOffset(env: Env, s: State, index: nat)
    requires index < |env.code| && env.code[index].Jump?
    ensures Step(env, s, index).Next? && Step(env, s, index).st == s
    ensures var k := env.code[index].offset;
      var j := Step(env, s, index).index;
      (0 <= index + k < U64_LIMIT ==> j == index + k) &&
      (index + k < 0 && index < U64_LIMIT ==> j == index + k + U64_LIMIT)
  {
  }

  /** StackPop drops the top of the value stack, and does nothing to an empty
      stack (execution_engine.rs:36-38). */
  lemma StackPopDrops(env: Env, s: State, index: nat)
    requires index < |env.code| && env.code[index].StackPop?
    ensures Step(env, s, index).Next? && Step(env, s, index).index == index + 1
    ensures s.stack == [] ==> Step(env, s, index).st == s
    ensures s.stack != [] ==> Step(env, s, index).st == s.(stack := s.stack[..|s.stack| - 1])
  {
  }

  /** A comparison changes no state and advances by 2 when it holds and by 1
      otherwise (execution_engine.rs:45-74). */
  lemma ComparisonSkips(env: Env, s: State, index: nat)
    requires index < |env.code| && IsComparison(env.code[index]) && Step(env, s, index).Next?
    ensures Step(env, s, index).st == s
    ensures Step(env, s, index).index in {index + 1, index + 2}
  {
  }

  /** For Equal the skip happens exactly when the operands are equal. */
  lemma EqualSkipsWhenEqual(env: Env, s: State, index: nat)
    requires index < |env.code| && env.code[index].Equal?
    requires PeekOk(env, s, env.code[index].a) && PeekOk(env, s, env.code[index].b)
    requires Equality(env.fu, Peek(env, s, env.code[index].a), Peek(env, s, env.code[index].b)).Ok?
    ensures Step(env, s, index).Next?
    ensures Step(env, s, index).index == index + 2 <==>
      Equality(env.fu, Peek(env, s, env.code[index].a), Peek(env, s, env.code[index].b)) == Ok(true)
  {
  }

  /** Every instruction that goes on, other than Jump and the comparisons,
      advances the index by exactly one (execution_engine.rs:78). */
  lemma OthersAdvanceByOne(env: Env, s: State, index: nat)
    requires index < |env.code| && !env.code[index].Call? && Step(env, s, index).Next?
    requires !env.code[index].Jump? && !IsComparison(env.code[index])
    ensures Step(env, s, index).index == index + 1
  {
  }

  /** The loop stops only at index == len: a comparison that holds on the last
      instruction takes the index to len + 1, and the next fetch is out of
      bounds (execution_engine.rs:12-13,45-78). */
  lemma SkipPastEndPanics(env: Env, s: State, index: nat, fuel: nat)
    requires index + 1 == |env.code| && !env.code[index].Call? && fuel >= 2
    requires Step(env, s, index).Next? && Step(env, s, index).index == index + 2
    ensures Loop(env, s, index, fuel) == Final(Step(env, s, index).st, Panicked)
  {
  }

  /** A call to the end of the program returns at once: the callee re-runs the
      import resolution, appending to the table again, executes no instruction,
      and the caller goes on after the call (execution_engine.rs:28,9-12). */
  lemma CallToEnd(env: Env, s: State, index: nat, fuel: nat)
    requires index < |env.code| && env.code[index].Call? && env.code[index].target == |env.code|
    requires fuel >= 2
    requires ResolveImports(env, s).1
    ensures Loop(env, s, index, fuel) == Loop(env, ResolveImports(env, s).0, index + 1, fuel - 1)
  {
    var s1 := ResolveImports(env, s).0;
    assert Execute(env, s, |env.code|, fuel - 1) == Final(s1, Finished);
  }

  /** A call to a position past the end panics at the callee's first fetch, and
      that ends the caller too, in the state the import resolution left
      (execution_engine.rs:12-13,28). */
  lemma CallPastEnd(env: Env, s: State, index: nat, fuel: nat)
    requires index < |env.code| && env.code[index].Call? && env.code[index].target > |env.code|
    requires fuel >= 2 && ResolveImports(env, s).1
    ensures Loop(env, s, index, fuel) == Final(ResolveImports(env, s).0, Panicked)
  {
    var s1 := ResolveImports(env, s).0;
    assert Execute(env, s, env.code[index].target, fuel - 1) == Final(s1, Panicked);
  }

  /** A callee whose imports cannot all be resolved ends the caller with the
      missing-imports error and the partly extended import table; no instruction
      of the callee runs (execution_engine.rs:9-10,28). */
  lemma CallMissingImport(env: Env, s: State, index: nat, fuel: nat)
    requires index < |env.code| && env.code[index].Call? && fuel >= 2
    requires !ResolveImports(env, s).1
    ensures Loop(env, s, index, fuel) == Final(ResolveImports(env, s).0, Fault(MissingImports))
  {
  }

  /** More fuel changes nothing about a run that ended without running out:
      the fuel bound only cuts runs short, it never alters their outcome. */
  lemma {:induction false} ExecuteFuel(env: Env, s: State, start: nat, f: nat, g: nat)
    requires f <= g && Execute(env, s, start, f).halt != OutOfFuel
    ensures Execute(env, s, start, g) == Execute(env, s, start, f)
    decreases f, 1
  {
    var (s1, ok) := ResolveImports(env, s);
    if ok {
      LoopFuel(env, s1, start, f - 1, g - 1);
    }
  }

  lemma {:induction false} LoopFuel(env: Env, s: State, index: nat, f: nat, g: nat)
    requires f <= g && Loop(env, s, index, f).halt != OutOfFuel
    ensures Loop(env, s, index, g) == Loop(env, s, index, f)
    decreases f, 0
  {
    if index < |env.code| {
      if env.code[index].Call? {
        var r := Execute(env, s, env.code[index].target, f - 1);
        ExecuteFuel(env, s, env.code[index].target, f - 1, g - 1);
        if r.halt == Finished {
          LoopFuel(env, r.st, index + 1, f - 1, g - 1);
        }
      } else {
        match Step(env, s, index)
        case Next(t, j) => LoopFuel(env, t, j, f - 1, g - 1);
        case Stop(_) =>
      }
    }
  }
}
