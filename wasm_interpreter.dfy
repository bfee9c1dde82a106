/**
 * The `WasmInterpreter` object: it runs the start function of a module, keeping the instruction
 * pointer, the operand stack and the call stack in its fields and the linear memory in the module.
 * Each turn of its loop is `Interpreter.Step`.
 */
module WasmInterpreters {
  import opened Wrappers
  import opened Exceptions
  import opened JavaInt
  import opened ByteStreams
  import opened Functions
  import opened LinearMemories
  import opened ExecEnvFrames
  import opened Modules
  import opened Interpreter
  import opened InterpreterMemory

  class WasmInterpreter {
    var instructionPointer: int
    const wasmModule: Module
    var callStack: seq<Frame>
    var operandStack: seq<int32>

    constructor (wasmModule: Module)
      ensures this.wasmModule == wasmModule
      ensures instructionPointer == 0 && callStack == [] && operandStack == []
    {
      this.wasmModule := wasmModule;
      instructionPointer := 0;
      callStack := [];
      operandStack := [];
    }

    /** The interpreter's fields, the code being read and the module's memory, as one state. */
    function Current(code: Stream): (r: Machine)
      reads this, wasmModule, wasmModule.linearMemory
      ensures r.ip == instructionPointer && r.operands == operandStack && r.frames == callStack
      ensures r.code == code && r.memory == MemoryOf(wasmModule.linearMemory)
    {
      Machine(instructionPointer, operandStack, callStack, code, MemoryOf(wasmModule.linearMemory))
    }

    /** Moves the fields and the module's memory (its pages: the maximum stays) to the state `m`. */
    method Adopt(m: State)
      requires SameMemory(MemoryOf(wasmModule.linearMemory), m.memory)
      modifies this, wasmModule.linearMemory
      ensures Current(m.code) == m
    {
      instructionPointer := m.ip;
      operandStack := m.operands;
      callStack := m.frames;
      if wasmModule.linearMemory != null {
        wasmModule.linearMemory.allocatedPages := m.memory.value.pages;
      }
    }

    /** The state `execute(parameters)` starts its loop from, or the exception it throws first. */
    function Launch(parameters: seq<int32>): (r: Outcome<State>)
      requires |parameters| <= MAX_INT
      reads this, wasmModule, wasmModule.functions, wasmModule.linearMemory
      ensures var fs := Models(wasmModule.functions); var idx := wasmModule.startFunctionIndex;
        r.Ok? <==> 0 <= idx < |fs| && |parameters| <= SlotCount(fs[idx]) && fs[idx].instructions.Some?
      ensures r.Ok? ==>
                |r.value.frames| == |callStack| + 1 && r.value.frames[..|callStack|] == callStack
                && r.value.frames[|callStack|].func == Models(wasmModule.functions)[wasmModule.startFunctionIndex]
      ensures r.Ok? ==>
                r.value.ip == instructionPointer && r.value.operands == operandStack
                && r.value.memory == MemoryOf(wasmModule.linearMemory)
    {
      Start(Models(wasmModule.functions), wasmModule.startFunctionIndex, parameters,
            instructionPointer, operandStack, callStack, MemoryOf(wasmModule.linearMemory))
    }

    /**
     * `execute(parameters)`: a frame for the start function is pushed and the parameters are
     * stored in its first slots; then the start function's code is run, at most `fuel` turns of
     * the loop. The outcome is the one `Start` and `Run` give, and a run that ends leaves its final
     * state in the fields and the module's memory.
     */
    method Execute(parameters: seq<int32>, fuel: nat) returns (r: Outcome<RunResult>)
      requires |parameters| <= MAX_INT
      modifies this, wasmModule.linearMemory
      ensures old(Launch(parameters)).Err? ==> r == Err(old(Launch(parameters)).error)
      ensures old(Launch(parameters)).Ok? ==>
                r == Run(Models(wasmModule.functions), old(Launch(parameters)).value, fuel)
      ensures r.Ok? ==> Current(r.value.state.code) == r.value.state
    {
      var fs := Models(wasmModule.functions);
      var m :- Begin(fs, parameters);
      IterationKeeps(fs);
      r := Resume(Iteration(fs), m, fuel);
    }

    /**
     * The first part of `execute`: the start function is looked up, a frame with room for its
     * locals and parameters is pushed, and the parameters are stored in it.
     */
    method Begin(fs: seq<FunctionData>, parameters: seq<int32>) returns (r: Outcome<State>)
      requires |parameters| <= MAX_INT && fs == Models(wasmModule.functions)
      modifies this
      ensures r == old(Launch(parameters))
      ensures r.Ok? ==> Current(r.value.code) == r.value
    {
      ghost var start := Start(fs, wasmModule.startFunctionIndex, parameters, instructionPointer,
                               operandStack, callStack, MemoryOf(wasmModule.linearMemory));
      if !(0 <= wasmModule.startFunctionIndex < |fs|) {
        return Err(IndexOutOfBounds);
      }
      var func := fs[wasmModule.startFunctionIndex];
      var locals :- NewLocals(SlotCount(func));
      ghost var below := callStack;
      callStack := callStack + [NewFrame(func, locals)];
      var i := 0;
      while i < |parameters|
        invariant 0 <= i <= |parameters|
        invariant |callStack| == |below| + 1 && callStack[..|below|] == below
        invariant StoreParameters(NewFrame(func, locals), parameters, 0)
                  == StoreParameters(callStack[|below|], parameters, i)
        invariant unchanged(`instructionPointer, `operandStack)
      {
        var f :- SetLocal(callStack[|callStack| - 1], parameters[i], i);
        callStack := callStack[..|callStack| - 1] + [f];
        i := i + 1;
      }
      assert callStack == below + [callStack[|below|]];
      var code :- CodeOf(func);
      return Ok(Current(Open(code)));
    }

    /**
     * The loop of `execute`: `while (executingCodeStream.available() != 0)`, one turn of `step`
     * (for `execute`, `Step` over the module's functions) at a time, for at most `fuel` turns, with
     * the fields and the module's memory following the state.
     */
    method Resume(step: State -> Outcome<Status>, m0: State, fuel: nat) returns (r: Outcome<RunResult>)
      requires Current(m0.code) == m0
      requires forall m: State :: Keeps(m, step(m))
      modifies this, wasmModule.linearMemory
      ensures r == Loop(step, m0, fuel)
      ensures r.Ok? ==> Current(r.value.state.code) == r.value.state
    {
      var m := m0;
      var left := fuel;
      while Available(m.code) != 0 && left > 0
        invariant Loop(step, m0, fuel) == Loop(step, m, left)
        invariant Current(m.code) == m
        decreases left
      {
        LoopTurn(step, m, left);
        var s :- step(m);
        Adopt(s.state);
        if s.Halted? {
          return Ok(Finished(s.state));
        }
        m := s.state;
        left := left - 1;
      }
      LoopStops(step, m, left);
      if Available(m.code) == 0 {
        return Ok(Finished(m));
      }
      return Ok(OutOfFuel(m));
    }
  }
}
