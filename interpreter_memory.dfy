/**
 * Execution never creates or drops the module's linear memory and never changes its maximum page
 * count: `grow_memory` only appends pages, and a store leaves the memory as it is. This is what
 * lets the interpreter object keep a single `LinearMemory` in its module for the whole run.
 */
module InterpreterMemory {
  import opened Wrappers
  import opened Exceptions
  import opened JavaInt
  import Leb128
  import opened Functions
  import opened LinearMemories
  import opened ExecEnvFrames
  import opened I32
  import opened I32Instructions
  import opened Interpreter
  import C = Constants

  /** Both states have a memory or neither has, and a memory keeps its maximum. */
  predicate SameMemory(a: Option<Memory>, b: Option<Memory>) {
    a.Some? == b.Some? && (a.Some? ==> a.value.maxPageCount == b.value.maxPageCount)
  }

  /** An iteration that succeeds leaves a memory like the one it started with. */
  predicate Keeps(m: State, r: Outcome<Status>) {
    r.Ok? ==> SameMemory(m.memory, r.value.state.memory)
  }

  lemma VariableKeeps(m: State, op: bv8)
    requires IsVariable(op)
    ensures Keeps(m, Variable(m, op))
  {
  }

  lemma AccessKeeps(m: State, op: bv8, offset: int32, alignmentSize: Outcome<nat>, offsetSize: Outcome<nat>)
    requires IsLoad(op) || IsStore(op)
    ensures Keeps(m, Access(m, op, offset, alignmentSize, offsetSize))
  {
  }

  lemma MemoryAccessKeeps(m: State, op: bv8)
    requires IsLoad(op) || IsStore(op)
    ensures Keeps(m, MemoryAccess(m, op))
  {
    var a := Leb128.DecodeUnsigned(m.code);
    if a.Ok? {
      var o := Leb128.DecodeUnsigned(a.value.1);
      if o.Ok? {
        AccessKeeps(m.(code := o.value.1), op, Signed(o.value.0), Leb128.Size(a.value.0), Leb128.Size(o.value.0));
      }
    }
  }

  lemma MemorySizeKeeps(m: State, op: bv8)
    requires op == C.CURRENT_MEMORY || op == C.GROW_MEMORY
    ensures Keeps(m, MemorySize(m, op))
  {
  }

  lemma NumericKeeps(m: State, op: bv8)
    requires op == C.I32_EQZ || IsTest(op) || IsUnary(op) || IsBinary(op)
    ensures Keeps(m, Numeric(m, op))
  {
  }

  lemma BrIfKeeps(m: State)
    ensures Keeps(m, BrIf(m))
  {
  }

  lemma IfKeeps(m: State)
    ensures Keeps(m, If(m))
  {
  }

  lemma ReturnKeeps(m: State)
    ensures Keeps(m, Return(m))
  {
  }

  lemma EnterKeeps(fs: seq<FunctionData>, m: State, index: int32, n: nat)
    ensures Keeps(m, Enter(fs, m, index, n))
  {
  }

  lemma CallKeeps(fs: seq<FunctionData>, m: State)
    ensures Keeps(m, Call(fs, m))
  {
    var d := Leb128.DecodeUnsigned(m.code);
    if d.Ok? && Leb128.Size(d.value.0).Ok? {
      EnterKeeps(fs, m, Signed(d.value.0), Leb128.Size(d.value.0).value);
    }
  }

  lemma ControlKeeps(fs: seq<FunctionData>, m: State, op: bv8)
    ensures Keeps(m, Control(fs, m, op))
  {
    if op == C.BR_IF {
      BrIfKeeps(m);
    } else if op == C.IF {
      IfKeeps(m);
    } else if op == C.CALL {
      CallKeeps(fs, m);
    } else if op == C.RETURN {
      ReturnKeeps(m);
    }
  }

  lemma DispatchKeeps(fs: seq<FunctionData>, m: State, op: bv8)
    ensures Keeps(m, Dispatch(fs, m, op))
  {
    if IsVariable(op) {
      VariableKeeps(m, op);
    } else if IsLoad(op) || IsStore(op) {
      MemoryAccessKeeps(m, op);
    } else if op == C.CURRENT_MEMORY || op == C.GROW_MEMORY {
      MemorySizeKeeps(m, op);
    } else if op == C.I32_EQZ || IsTest(op) || IsUnary(op) || IsBinary(op) {
      NumericKeeps(m, op);
    } else {
      ControlKeeps(fs, m, op);
    }
  }

  lemma SkipLoopKeeps(m: State, f: Frame, op: bv8)
    ensures Keeps(m, SkipLoop(m, f, op))
  {
  }

  lemma SkipCodeKeeps(m: State, f: Frame, op: bv8)
    ensures Keeps(m, SkipCode(m, f, op))
  {
  }

  lemma ExecuteKeeps(fs: seq<FunctionData>, m: State, f: Frame, op: bv8)
    ensures Keeps(m, Interpreter.Execute(fs, m, f, op))
  {
    if f.skipCode {
      SkipCodeKeeps(m, f, op);
    } else {
      DispatchKeeps(fs, WithTop(m, f), op);
    }
  }

  /** One iteration of the loop keeps the memory. */
  lemma StepKeeps(fs: seq<FunctionData>, m: State)
    ensures Keeps(m, Step(fs, m))
  {
    var x := Fetch(m);
    if x.Ok? {
      var m1 := m.(code := x.value.code);
      SkipLoopKeeps(m1, x.value.frame, x.value.op);
      ExecuteKeeps(fs, m1, x.value.frame, x.value.op);
    }
  }

  /** The same, for the loop body as a function value. */
  lemma IterationKeeps(fs: seq<FunctionData>)
    ensures forall m: State :: Keeps(m, Iteration(fs)(m))
  {
    forall m: State
      ensures Keeps(m, Iteration(fs)(m))
    {
      StepKeeps(fs, m);
    }
  }
}
