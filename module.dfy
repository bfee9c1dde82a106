/** A decoded WebAssembly module: its linear memory, its functions and the index of the start function. */
module Modules {
  import opened JavaInt
  import opened Functions
  import opened LinearMemories

  class Module {
    var linearMemory: LinearMemory?
    var functions: seq<Function>
    var startFunctionIndex: int32

    /** `new Module(initialLocalMemoryPageCount, functions, startFunctionIndex)`: a fresh memory of the given size with the one-argument `LinearMemory` constructor (maximum 1 page). */
    constructor (initialLocalMemoryPageCount: int32, functions: seq<Function>, startFunctionIndex: int32)
      ensures linearMemory != null && fresh(linearMemory)
      ensures linearMemory.Model() == NewWithDefaultMax(initialLocalMemoryPageCount)
      ensures this.functions == functions && this.startFunctionIndex == startFunctionIndex
    {
      var memory := new LinearMemory(initialLocalMemoryPageCount);
      linearMemory := memory;
      this.functions := functions;
      this.startFunctionIndex := startFunctionIndex;
    }

    method GetLinearMemory() returns (r: LinearMemory?)
      ensures r == linearMemory
    {
      return linearMemory;
    }

    method SetLinearMemory(linearMemory: LinearMemory?)
      modifies this
      ensures this.linearMemory == linearMemory
      ensures functions == old(functions) && startFunctionIndex == old(startFunctionIndex)
    {
      this.linearMemory := linearMemory;
    }

    method GetFunctions() returns (r: seq<Function>)
      ensures r == functions
    {
      return functions;
    }

    method SetFunctions(functions: seq<Function>)
      modifies this
      ensures this.functions == functions
      ensures linearMemory == old(linearMemory) && startFunctionIndex == old(startFunctionIndex)
    {
      this.functions := functions;
    }

    method GetStartFunctionIndex() returns (r: int32)
      ensures r == startFunctionIndex
    {
      return startFunctionIndex;
    }

    method SetStartFunctionIndex(startFunctionIndex: int32)
      modifies this
      ensures this.startFunctionIndex == startFunctionIndex
      ensures linearMemory == old(linearMemory) && functions == old(functions)
    {
      this.startFunctionIndex := startFunctionIndex;
    }
  }
}
