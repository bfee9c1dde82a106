/** A WebAssembly function as the parser builds it: its signature counts, its declared locals and its code. */
module Functions {
  import opened Wrappers
  import opened JavaInt

  /** The state of a `Function` object; `instructions` is `None` while the Java field is null. */
  datatype FunctionData = FunctionData(
    instructions: Option<seq<bv8>>,
    parameterCount: int32,
    returnValueCount: int32,
    localVariableCount: int32)

  /** `new Function(parameterCount, returnValueCount)`: no code yet and no declared locals. */
  function NewFunction(parameterCount: int32, returnValueCount: int32): (f: FunctionData)
    ensures f.instructions.None? && f.localVariableCount == 0
    ensures f.parameterCount == parameterCount && f.returnValueCount == returnValueCount
  {
    FunctionData(None, parameterCount, returnValueCount, 0)
  }

  /** `getLocalVariableCount`: the declared locals together with the parameters, as a wrapping `int` sum. */
  function LocalVariableCount(f: FunctionData): (n: int32)
    ensures (n - f.localVariableCount - f.parameterCount) % TWO_32 == 0
    ensures MIN_INT <= f.localVariableCount + f.parameterCount <= MAX_INT ==> n == f.localVariableCount + f.parameterCount
  {
    Wrap(f.localVariableCount + f.parameterCount)
  }

  /** `setLocalVariableCount(n)` stores the declared part only: the next `getLocalVariableCount` adds the parameters to `n`. */
  lemma SetThenGetLocalVariableCount(f: FunctionData, n: int32)
    requires 0 <= n && 0 <= f.parameterCount && n + f.parameterCount <= MAX_INT
    ensures LocalVariableCount(f.(localVariableCount := n)) == n + f.parameterCount
    ensures f.(localVariableCount := n).parameterCount == f.parameterCount
  {
  }

  /** A new parameter count shows in `getLocalVariableCount` and changes nothing else. */
  lemma SetParameterCountReflected(f: FunctionData, p: int32)
    requires 0 <= f.localVariableCount && 0 <= p && f.localVariableCount + p <= MAX_INT
    ensures LocalVariableCount(f.(parameterCount := p)) == f.localVariableCount + p
    ensures f.(parameterCount := p).returnValueCount == f.returnValueCount
    ensures f.(parameterCount := p).instructions == f.instructions
  {
  }

  class Function {
    var instructions: Option<seq<bv8>>
    var parameterCount: int32
    var returnValueCount: int32
    var localVariableCount: int32

    function Model(): FunctionData
      reads this
    {
      FunctionData(instructions, parameterCount, returnValueCount, localVariableCount)
    }

    constructor (parameterCount: int32, returnValueCount: int32)
      ensures Model() == NewFunction(parameterCount, returnValueCount)
    {
      instructions := None;
      this.parameterCount := parameterCount;
      this.returnValueCount := returnValueCount;
      localVariableCount := 0;
    }

    method GetInstructions() returns (r: Option<seq<bv8>>)
      ensures r == Model().instructions
    {
      return instructions;
    }

    method SetInstructions(instructions: seq<bv8>)
      modifies this
      ensures Model() == old(Model()).(instructions := Some(instructions))
    {
      this.instructions := Some(instructions);
    }

    method GetParameterCount() returns (r: int32)
      ensures r == Model().parameterCount
    {
      return parameterCount;
    }

    method SetParameterCount(parameterCount: int32)
      modifies this
      ensures Model() == old(Model()).(parameterCount := parameterCount)
    {
      this.parameterCount := parameterCount;
    }

    method GetReturnValueCount() returns (r: int32)
      ensures r == Model().returnValueCount
    {
      return returnValueCount;
    }

    method SetReturnValueCount(returnValueCount: int32)
      modifies this
      ensures Model() == old(Model()).(returnValueCount := returnValueCount)
    {
      this.returnValueCount := returnValueCount;
    }

    method GetLocalVariableCount() returns (r: int32)
      ensures r == LocalVariableCount(Model())
    {
      return Wrap(localVariableCount + parameterCount);
    }

    method SetLocalVariableCount(localVariableCount: int32)
      modifies this
      ensures Model() == old(Model()).(localVariableCount := localVariableCount)
    {
      this.localVariableCount := localVariableCount;
    }
  }

  /** The state of each `Function` object of a list, in order. */
  function Models(fs: seq<Function>): (r: seq<FunctionData>)
    reads fs
    ensures |r| == |fs| && forall i {:trigger r[i]} :: 0 <= i < |fs| ==> r[i] == fs[i].Model()
  {
    if fs == [] then [] else Models(fs[..|fs| - 1]) + [fs[|fs| - 1].Model()]
  }
}
